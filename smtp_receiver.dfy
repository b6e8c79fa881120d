/**
 * The SMTP stub server: for each accepted client it prints a notice, sends
 * the `220` greeting, then reads lines one at a time, echoes each to its
 * standard output and answers from the exact line text and one flag,
 * `reading_data`, until the client sends `QUIT`.
 *
 * A client is the finite sequence of lines it sends. What the server writes
 * is one trace of events in program order: lines printed on standard output,
 * lines written to the client, and the closing of the connection.
 */
module SmtpReceiver {
  import opened Collections
  import opened Text

  const Greeting: string := "220 Awesome SMTP server\r\n"
  const DataReply: string := "354 Intermediate\r\n"
  const OkReply: string := "250 OK\r\n"

  const DataCommand: Line := "DATA\r\n"
  const EndOfData: Line := ".\r\n"
  const QuitCommand: Line := "QUIT\r\n"

  const ConnectedNotice: string := "SERVER INFO: SMTP client connected!"
  const DisconnectedNotice: string := "SERVER INFO: SMTP client disconnected!"
  const DefaultPort: string := "2525"

  datatype Event =
    | Stdout(text: string)    // `puts` on the server's standard output
    | ToClient(text: string)  // `client.puts`
    | Close                   // `client.close`

  /** One pass through the `case`: the new `reading_data`, the reply to send if any, and the new `connected`. */
  datatype Step = Step(readingData: bool, reply: Option<string>, connected: bool)

  /** The `case` on the exact line text: control lines are recognised in either mode. */
  function Dispatch(readingData: bool, line: Line): Step {
    if line == DataCommand then Step(true, Some(DataReply), true)
    else if line == EndOfData then Step(false, Some(OkReply), true)
    else if line == QuitCommand then Step(readingData, None, false)
    else Step(readingData, if readingData then None else Some(OkReply), true)
  }

  /** What one loop iteration writes: the echo of the line, then its reply if it has one. */
  function LineEvents(line: Line, st: Step): seq<Event> {
    [Stdout(Puts(line))] + (match st.reply case Some(r) => [ToClient(Puts(r))] case None => [])
  }

  /** What the `while connected` loop writes for `lines`, starting in mode `readingData`. */
  function LoopTrace(readingData: bool, lines: seq<Line>): seq<Event>
    decreases |lines|
  {
    if lines == [] then []
    else
      var st := Dispatch(readingData, lines[0]);
      LineEvents(lines[0], st) + (if st.connected then LoopTrace(st.readingData, lines[1..]) else [])
  }

  /** The client sends `QUIT` at some point, so its session ends. */
  predicate Quits(lines: seq<Line>) {
    QuitCommand in lines
  }

  const Prologue: seq<Event> := [Stdout(Puts(ConnectedNotice)), ToClient(Puts(Greeting))]
  const Epilogue: seq<Event> := [Close, Stdout(Puts(DisconnectedNotice))]

  /** Everything the server writes while it serves one client. */
  function SessionTrace(lines: seq<Line>): seq<Event> {
    Prologue + LoopTrace(false, lines) + (if Quits(lines) then Epilogue else [])
  }

  /** How many lines the session reads: up to and including the first `QUIT`, or all of them. */
  function ReadCount(lines: seq<Line>): (n: nat)
    ensures n <= |lines|
    ensures QuitCommand !in lines[..n] || (n > 0 && lines[n - 1] == QuitCommand && QuitCommand !in lines[..n - 1])
    ensures Quits(lines) <==> n > 0 && lines[n - 1] == QuitCommand
    ensures !Quits(lines) ==> n == |lines|
  {
    if lines == [] then 0
    else if lines[0] == QuitCommand then 1
    else
      var n := 1 + ReadCount(lines[1..]);
      assert lines[..n] == [lines[0]] + lines[1..][..n - 1];
      assert lines == [lines[0]] + lines[1..];
      n
  }

  /** The lines `puts` prints on standard output. */
  function Printed(t: seq<Event>): seq<string> {
    if t == [] then [] else (if t[0].Stdout? then [t[0].text] else []) + Printed(t[1..])
  }

  /** The lines written to the client. */
  function Sent(t: seq<Event>): seq<string> {
    if t == [] then [] else (if t[0].ToClient? then [t[0].text] else []) + Sent(t[1..])
  }

  /** `puts` applied to each line. */
  function Echo(lines: seq<Line>): (e: seq<string>)
    ensures |e| == |lines| && forall i :: 0 <= i < |lines| ==> e[i] == Puts(lines[i])
  {
    if lines == [] then [] else [Puts(lines[0])] + Echo(lines[1..])
  }

  /** The canned replies already end in a newline, so `client.puts` sends them unchanged. */
  lemma CannedReplies()
    ensures Puts(Greeting) == Greeting && Puts(DataReply) == DataReply && Puts(OkReply) == OkReply
  {
  }

  /** The `while connected` loop: read a line, echo it, reply, until `QUIT` or the last line. */
  method Converse(lines: seq<Line>) returns (trace: seq<Event>, quit: bool)
    ensures trace == LoopTrace(false, lines)
    ensures quit <==> Quits(lines)
  {
    trace := [];
    var connected := true;
    var readingData := false;
    var i := 0;
    assert lines[i..] == lines;
    while connected && i < |lines|
      invariant 0 <= i <= |lines|
      invariant connected ==> trace + LoopTrace(readingData, lines[i..]) == LoopTrace(false, lines)
      invariant connected ==> QuitCommand !in lines[..i]
      invariant !connected ==> trace == LoopTrace(false, lines) && Quits(lines)
    {
      var line := lines[i];
      var st := Dispatch(readingData, line);
      ghost var before := trace;
      trace := trace + [Stdout(Puts(line))];
      if st.reply.Some? {
        trace := trace + [ToClient(Puts(st.reply.value))];
      }
      assert trace == before + LineEvents(line, st);
      LoopAdvance(before, readingData, lines, i);
      TakeSnoc(lines, i);
      readingData, connected := st.readingData, st.connected;
      i := i + 1;
    }
    assert connected ==> lines[..i] == lines;
    quit := !connected;
  }

  /** One client's session: the notice and greeting, the loop, then the close and notice once the client quits. */
  method Session(lines: seq<Line>) returns (trace: seq<Event>, ended: bool)
    ensures trace == SessionTrace(lines)
    ensures ended <==> Quits(lines)
  {
    trace := [Stdout(Puts(ConnectedNotice))];
    trace := trace + [ToClient(Puts(Greeting))];
    assert trace == Prologue;
    var loop;
    loop, ended := Converse(lines);
    trace := trace + loop;
    if ended {
      trace := trace + [Close];
      trace := trace + [Stdout(Puts(DisconnectedNotice))];
      assert trace == Prologue + loop + Epilogue;
    } else {
      assert trace == Prologue + loop + [];
    }
  }

  /** One turn of the loop at position `i`, after the events `done`. */
  lemma LoopAdvance(done: seq<Event>, readingData: bool, lines: seq<Line>, i: nat)
    requires i < |lines|
    ensures var st := Dispatch(readingData, lines[i]);
            if st.connected
            then done + LineEvents(lines[i], st) + LoopTrace(st.readingData, lines[i + 1..]) == done + LoopTrace(readingData, lines[i..])
            else done + LineEvents(lines[i], st) == done + LoopTrace(readingData, lines[i..]) && lines[i] == QuitCommand
  {
    assert lines[i..][0] == lines[i];
    assert lines[i..][1..] == lines[i + 1..];
  }

  /** The port named on the command line, else 2525. */
  function PortArgument(args: seq<string>): string {
    if |args| > 0 then args[0] else DefaultPort
  }

  /**
   * How many clients the accept loop gets to: clients are served one after
   * another, and a client that never sends `QUIT` keeps the loop forever.
   */
  function Served(clients: seq<seq<Line>>): (n: nat)
    ensures n <= |clients|
    ensures forall i :: 0 <= i < n - 1 ==> Quits(clients[i])
    ensures n < |clients| ==> n > 0 && !Quits(clients[n - 1])
    ensures n == 0 <==> clients == []
  {
    if clients == [] then 0
    else if Quits(clients[0]) then 1 + Served(clients[1..])
    else 1
  }

  /** Concatenation of the standard output of several sessions. */
  function PrintedAll(sessions: seq<seq<Event>>): seq<string> {
    if sessions == [] then [] else Printed(sessions[0]) + PrintedAll(sessions[1..])
  }

  /** The accept loop: bind, then serve each client in turn until one never quits. */
  method Serve(args: seq<string>, clients: seq<seq<Line>>) returns (stdout: seq<string>, sessions: seq<seq<Event>>)
    ensures |sessions| == Served(clients)
    ensures forall i :: 0 <= i < |sessions| ==> sessions[i] == SessionTrace(clients[i])
    ensures stdout == [Puts("Binding to port " + PortArgument(args))] + PrintedAll(sessions)
  {
    var banner := Puts("Binding to port " + PortArgument(args));
    stdout := [banner];
    sessions := [];
    var k := 0;
    var serving := true;
    while serving && k < |clients|
      invariant ServingFrom(clients, banner, k, serving, sessions, stdout)
    {
      var trace, ended := Session(clients[k]);
      ServeStep(clients, banner, k, sessions, stdout, trace, ended);
      sessions, stdout, serving, k := sessions + [trace], stdout + Printed(trace), ended, k + 1;
    }
  }

  /** The accept loop's invariant after `k` clients: their sessions, everything printed so far, and how many clients remain to be served. */
  ghost predicate ServingFrom(clients: seq<seq<Line>>, banner: string, k: nat, serving: bool,
                              sessions: seq<seq<Event>>, stdout: seq<string>)
  {
    && k <= |clients| && |sessions| == k
    && (forall i :: 0 <= i < k ==> sessions[i] == SessionTrace(clients[i]))
    && stdout == [banner] + PrintedAll(sessions)
    && (if serving then Served(clients) == k + Served(clients[k..]) else Served(clients) == k)
  }

  /** Serving client `k` keeps the accept loop's invariant. */
  lemma ServeStep(clients: seq<seq<Line>>, banner: string, k: nat, sessions: seq<seq<Event>>, stdout: seq<string>,
                  trace: seq<Event>, ended: bool)
    requires k < |clients| && ServingFrom(clients, banner, k, true, sessions, stdout)
    requires trace == SessionTrace(clients[k]) && (ended <==> Quits(clients[k]))
    ensures ServingFrom(clients, banner, k + 1, ended, sessions + [trace], stdout + Printed(trace))
  {
    ServedFrom(clients, k);
    PrintedAllSnoc(sessions, trace);
  }

  /** Serving from client `k` on: that client, and the ones after it if it quits. */
  lemma ServedFrom(clients: seq<seq<Line>>, k: nat)
    requires k < |clients|
    ensures Served(clients[k..]) == if Quits(clients[k]) then 1 + Served(clients[k + 1..]) else 1
  {
    var c := clients[k..];
    assert c[0] == clients[k] && c[1..] == clients[k + 1..];
  }

  lemma {:induction false} PrintedAllSnoc(sessions: seq<seq<Event>>, t: seq<Event>)
    ensures PrintedAll(sessions + [t]) == PrintedAll(sessions) + Printed(t)
  {
    if sessions != [] {
      assert (sessions + [t])[1..] == sessions[1..] + [t];
      PrintedAllSnoc(sessions[1..], t);
    } else {
      assert [t][1..] == [];
    }
  }

  lemma {:induction false} PrintedAppend(a: seq<Event>, b: seq<Event>)
    ensures Printed(a + b) == Printed(a) + Printed(b)
  {
    if a != [] {
      assert (a + b)[1..] == a[1..] + b;
      PrintedAppend(a[1..], b);
    } else {
      assert a + b == b;
    }
  }

  lemma {:induction false} SentAppend(a: seq<Event>, b: seq<Event>)
    ensures Sent(a + b) == Sent(a) + Sent(b)
  {
    if a != [] {
      assert (a + b)[1..] == a[1..] + b;
      SentAppend(a[1..], b);
    } else {
      assert a + b == b;
    }
  }

  /** Within the loop, the client only ever receives `354 Intermediate` or `250 OK`. */
  lemma {:induction false} LoopRepliesAreCanned(readingData: bool, lines: seq<Line>)
    ensures forall j :: 0 <= j < |LoopTrace(readingData, lines)| && LoopTrace(readingData, lines)[j].ToClient? ==>
              LoopTrace(readingData, lines)[j].text in {DataReply, OkReply}
    decreases |lines|
  {
    if lines != [] {
      var st := Dispatch(readingData, lines[0]);
      CannedReplies();
      LoopRepliesAreCanned(st.readingData, lines[1..]);
    }
  }

  /** The greeting `220 Awesome SMTP server` CRLF is the first thing the client receives, before any line is read, and is never sent again. */
  lemma GreetingFirstAndOnce(lines: seq<Line>)
    ensures SessionTrace(lines)[1] == ToClient("220 Awesome SMTP server\r\n")
    ensures forall j :: 2 <= j < |SessionTrace(lines)| && SessionTrace(lines)[j].ToClient? ==>
              SessionTrace(lines)[j].text != Greeting
  {
    CannedReplies();
    LoopRepliesAreCanned(false, lines);
    var t := SessionTrace(lines);
    var loop := LoopTrace(false, lines);
    forall j | 2 <= j < |t| && t[j].ToClient? ensures t[j].text != Greeting {
      if j < 2 + |loop| {
        assert t[j] == loop[j - 2];
      }
    }
  }

  /** Every line read, up to and including the first `QUIT`, is echoed in the order read; no later line is read. */
  lemma {:induction false} LoopEchoesLinesRead(readingData: bool, lines: seq<Line>)
    ensures Printed(LoopTrace(readingData, lines)) == Echo(lines[..ReadCount(lines)])
    decreases |lines|
  {
    if lines != [] {
      var st := Dispatch(readingData, lines[0]);
      var events := LineEvents(lines[0], st);
      assert Printed(events) == [Puts(lines[0])] by {
        if st.reply.Some? {
          assert events[1..] == [ToClient(Puts(st.reply.value))];
          assert Printed(events[1..][1..]) == [];
        }
      }
      if st.connected {
        LoopEchoesLinesRead(st.readingData, lines[1..]);
        PrintedAppend(events, LoopTrace(st.readingData, lines[1..]));
        var n, rest := ReadCount(lines), lines[1..];
        var x, y := lines[..n], rest[..n - 1];
        TakeCons(lines, n);
        assert Echo(x) == [Puts(lines[0])] + Echo(y) by {
          assert x[0] == lines[0] && x[1..] == y;
        }
      } else {
        assert LoopTrace(readingData, lines) == events + [];
        assert lines[..1] == [lines[0]];
      }
    }
  }

  /** A session's standard output: the connected notice, every line read, then the disconnected notice once it has closed. */
  lemma SessionStdout(lines: seq<Line>)
    ensures Printed(SessionTrace(lines)) ==
              [Puts(ConnectedNotice)] + Echo(lines[..ReadCount(lines)])
              + (if Quits(lines) then [Puts(DisconnectedNotice)] else [])
  {
    LoopEchoesLinesRead(false, lines);
    var loop := LoopTrace(false, lines);
    var tail := if Quits(lines) then Epilogue else [];
    PrintedAppend(Prologue + loop, tail);
    PrintedAppend(Prologue, loop);
    assert Printed(Prologue) == [Puts(ConnectedNotice)] by {
      assert Prologue[1..] == [ToClient(Puts(Greeting))];
      assert Prologue[1..][1..] == [];
    }
    assert Printed(Epilogue) == [Puts(DisconnectedNotice)] by {
      assert Epilogue[1..] == [Stdout(Puts(DisconnectedNotice))];
      assert Epilogue[1..][1..] == [];
    }
  }

  /** The close and then the disconnected notice end the trace of a session that quits; the connected notice starts every session. */
  lemma SessionBracketed(lines: seq<Line>)
    ensures SessionTrace(lines)[0] == Stdout(Puts(ConnectedNotice))
    ensures Quits(lines) ==> SessionTrace(lines)[|SessionTrace(lines)| - 2..] == [Close, Stdout(Puts(DisconnectedNotice))]
    ensures Close in SessionTrace(lines) <==> Quits(lines)
  {
    var loop := LoopTrace(false, lines);
    NoCloseInLoop(false, lines);
    if !Quits(lines) {
      assert SessionTrace(lines) == Prologue + loop;
      assert Close !in Prologue;
    }
  }

  lemma {:induction false} NoCloseInLoop(readingData: bool, lines: seq<Line>)
    ensures Close !in LoopTrace(readingData, lines)
    decreases |lines|
  {
    if lines != [] {
      var st := Dispatch(readingData, lines[0]);
      NoCloseInLoop(st.readingData, lines[1..]);
    }
  }

  /** Every reply immediately follows an echo: nothing is sent to the client before the line it answers is printed. */
  lemma {:induction false} EchoBeforeReply(readingData: bool, lines: seq<Line>)
    ensures forall j :: 0 <= j < |LoopTrace(readingData, lines)| && LoopTrace(readingData, lines)[j].ToClient? ==>
              j > 0 && LoopTrace(readingData, lines)[j - 1].Stdout?
    decreases |lines|
  {
    if lines != [] {
      var st := Dispatch(readingData, lines[0]);
      var events := LineEvents(lines[0], st);
      var rest := if st.connected then LoopTrace(st.readingData, lines[1..]) else [];
      EchoBeforeReply(st.readingData, lines[1..]);
      var t := LoopTrace(readingData, lines);
      assert t == events + rest;
      forall j | 0 <= j < |t| && t[j].ToClient? ensures j > 0 && t[j - 1].Stdout? {
        if j >= |events| {
          assert t[j] == rest[j - |events|];
          if j - |events| == 0 {
            assert false;
          }
        }
      }
    }
  }

  /** The mode each line is read in: `reading_data` as the loop finds it on reaching that line. */
  function Modes(readingData: bool, lines: seq<Line>): (ms: seq<bool>)
    ensures |ms| == |lines|
    decreases |lines|
  {
    if lines == [] then [] else [readingData] + Modes(Dispatch(readingData, lines[0]).readingData, lines[1..])
  }

  /** Where the echo of line `k` stands in the loop's trace. */
  function EchoPosition(readingData: bool, lines: seq<Line>, k: nat): nat
    requires k < |lines|
    decreases k
  {
    if k == 0 then 0
    else
      var st := Dispatch(readingData, lines[0]);
      |LineEvents(lines[0], st)| + EchoPosition(st.readingData, lines[1..], k - 1)
  }

  /** At `p` the trace echoes `line`, and right after it comes the reply of `st`, or no reply when `st` has none. */
  predicate AnsweredAt(t: seq<Event>, p: nat, line: Line, st: Step) {
    p < |t| && t[p] == Stdout(Puts(line))
    && match st.reply
       case Some(r) => p + 1 < |t| && t[p + 1] == ToClient(Puts(r))
       case None => p + 1 == |t| || !t[p + 1].ToClient?
  }

  /** What is answered in a later part of a trace is answered at the shifted position of the whole trace. */
  lemma AnsweredShift(events: seq<Event>, rest: seq<Event>, p: nat, line: Line, st: Step)
    requires AnsweredAt(rest, p, line, st)
    ensures AnsweredAt(events + rest, |events| + p, line, st)
  {
    var t := events + rest;
    assert t[|events| + p] == rest[p];
    if p + 1 < |rest| {
      assert t[|events| + p + 1] == rest[p + 1];
    }
  }

  /** The first line read is echoed first, and its reply, if any, comes right after. */
  lemma AnsweredFirst(readingData: bool, lines: seq<Line>)
    requires lines != []
    ensures AnsweredAt(LoopTrace(readingData, lines), 0, lines[0], Dispatch(readingData, lines[0]))
  {
    var st := Dispatch(readingData, lines[0]);
    var events := LineEvents(lines[0], st);
    var rest := if st.connected then LoopTrace(st.readingData, lines[1..]) else [];
    assert LoopTrace(readingData, lines) == events + rest;
    if rest != [] {
      assert rest[0].Stdout?;
    }
  }

  /**
   * Each line read, that is each line with no `QUIT` before it, is echoed,
   * and its echo is immediately followed by the reply the `case` gives that
   * line in the mode it is read in, or by no reply at all when the `case`
   * gives none.
   */
  lemma {:induction false} ReplyFollowsEcho(readingData: bool, lines: seq<Line>, k: nat)
    requires k < |lines| && QuitCommand !in lines[..k]
    ensures AnsweredAt(LoopTrace(readingData, lines), EchoPosition(readingData, lines, k),
                       lines[k], Dispatch(Modes(readingData, lines)[k], lines[k]))
    decreases k
  {
    if k == 0 {
      AnsweredFirst(readingData, lines);
    } else {
      ReadPastFirst(lines, k);
      ReplyFollowsEcho(Dispatch(readingData, lines[0]).readingData, lines[1..], k - 1);
      AnsweredLater(readingData, lines, k);
    }
  }

  /** What the rest of the loop answers, the whole loop answers, one line further on. */
  lemma AnsweredLater(readingData: bool, lines: seq<Line>, k: nat)
    requires 0 < k < |lines| && lines[0] != QuitCommand
    requires var mode, tail := Dispatch(readingData, lines[0]).readingData, lines[1..];
             AnsweredAt(LoopTrace(mode, tail), EchoPosition(mode, tail, k - 1),
                        tail[k - 1], Dispatch(Modes(mode, tail)[k - 1], tail[k - 1]))
    ensures AnsweredAt(LoopTrace(readingData, lines), EchoPosition(readingData, lines, k),
                       lines[k], Dispatch(Modes(readingData, lines)[k], lines[k]))
  {
    var st := Dispatch(readingData, lines[0]);
    var tail := lines[1..];
    TraceCons(readingData, lines);
    LaterLine(readingData, lines, k);
    AnsweredShift(LineEvents(lines[0], st), LoopTrace(st.readingData, tail), EchoPosition(st.readingData, tail, k - 1),
                  lines[k], Dispatch(Modes(st.readingData, tail)[k - 1], tail[k - 1]));
  }

  /** Line `k` of the loop is line `k - 1` of the rest, read in the same mode, one line's events further on. */
  lemma LaterLine(readingData: bool, lines: seq<Line>, k: nat)
    requires 0 < k < |lines|
    ensures var st := Dispatch(readingData, lines[0]);
            && lines[1..][k - 1] == lines[k]
            && Modes(readingData, lines)[k] == Modes(st.readingData, lines[1..])[k - 1]
            && EchoPosition(readingData, lines, k) == |LineEvents(lines[0], st)| + EchoPosition(st.readingData, lines[1..], k - 1)
  {
    assert Modes(readingData, lines) == [readingData] + Modes(Dispatch(readingData, lines[0]).readingData, lines[1..]);
  }

  /** A line with no `QUIT` before it, other than the first, also has none before it in the rest of the lines. */
  lemma ReadPastFirst(lines: seq<Line>, k: nat)
    requires 0 < k < |lines| && QuitCommand !in lines[..k]
    ensures lines[0] != QuitCommand && QuitCommand !in lines[1..][..k - 1]
  {
    assert lines[0] == lines[..k][0];
    assert lines[1..][..k - 1] == lines[..k][1..];
  }

  /** A first line other than `QUIT` is answered, and the loop goes on with the rest. */
  lemma TraceCons(readingData: bool, lines: seq<Line>)
    requires lines != [] && lines[0] != QuitCommand
    ensures var st := Dispatch(readingData, lines[0]);
            LoopTrace(readingData, lines) == LineEvents(lines[0], st) + LoopTrace(st.readingData, lines[1..])
  {
  }

  /** The body of a message: lines other than `DATA`, `.` and `QUIT`. */
  predicate IsBodyLine(line: Line) {
    line != DataCommand && line != EndOfData && line != QuitCommand
  }

  /** In data mode, body lines are echoed and get no reply. */
  lemma {:induction false} BodySwallowed(body: seq<Line>, tail: seq<Line>)
    requires forall i :: 0 <= i < |body| ==> IsBodyLine(body[i])
    ensures LoopTrace(true, body + tail) == EchoEvents(body) + LoopTrace(true, tail)
  {
    if body != [] {
      assert (body + tail)[0] == body[0];
      assert (body + tail)[1..] == body[1..] + tail;
      BodySwallowed(body[1..], tail);
    } else {
      assert body + tail == tail;
    }
  }

  /** One standard-output event per line, echoing it. */
  function EchoEvents(lines: seq<Line>): seq<Event> {
    if lines == [] then [] else [Stdout(Puts(lines[0]))] + EchoEvents(lines[1..])
  }

  /**
   * `DATA`, then body lines, then a lone `.`, in either mode: `354
   * Intermediate` after `DATA`, the body echoed without replies, `250 OK`
   * after the `.`, and command mode afterwards.
   */
  lemma DataTransaction(readingData: bool, body: seq<Line>, rest: seq<Line>)
    requires forall i :: 0 <= i < |body| ==> IsBodyLine(body[i])
    ensures LoopTrace(readingData, [DataCommand] + body + [EndOfData] + rest) ==
              [Stdout(Puts(DataCommand)), ToClient(DataReply)] + EchoEvents(body)
              + [Stdout(Puts(EndOfData)), ToClient(OkReply)] + LoopTrace(false, rest)
  {
    var tail := [EndOfData] + rest;
    var opening, echoed, closing := [Stdout(Puts(DataCommand)), ToClient(DataReply)], EchoEvents(body),
                                  [Stdout(Puts(EndOfData)), ToClient(OkReply)];
    var after := LoopTrace(false, rest);
    assert [DataCommand] + body + [EndOfData] + rest == [DataCommand] + (body + tail);
    DataOpens(readingData, body + tail);
    BodySwallowed(body, tail);
    DataCloses(true, rest);
    assert LoopTrace(true, body + tail) == echoed + (closing + after);
    assert opening + (echoed + (closing + after)) == opening + echoed + closing + after;
  }

  /** `DATA` in either mode is echoed, answered with `354 Intermediate`, and starts data mode. */
  lemma DataOpens(readingData: bool, tail: seq<Line>)
    ensures LoopTrace(readingData, [DataCommand] + tail) ==
              [Stdout(Puts(DataCommand)), ToClient(DataReply)] + LoopTrace(true, tail)
  {
    var lines := [DataCommand] + tail;
    CannedReplies();
    assert lines[0] == DataCommand && lines[1..] == tail;
  }

  /** A lone `.` in either mode is echoed, answered with `250 OK`, and leaves the loop in command mode. */
  lemma DataCloses(readingData: bool, rest: seq<Line>)
    ensures LoopTrace(readingData, [EndOfData] + rest) ==
              [Stdout(Puts(EndOfData)), ToClient(OkReply)] + LoopTrace(false, rest)
  {
    var lines := [EndOfData] + rest;
    CannedReplies();
    assert lines[0] == EndOfData && lines[1..] == rest;
  }

  /** Outside data mode, when no line is `DATA` or `QUIT`, every line gets exactly one `250 OK`. */
  lemma {:induction false} CommandModeAcknowledgesEachLine(lines: seq<Line>)
    requires forall i :: 0 <= i < |lines| ==> lines[i] != DataCommand && lines[i] != QuitCommand
    ensures Sent(LoopTrace(false, lines)) == seq(|lines|, _ => OkReply)
    ensures Printed(LoopTrace(false, lines)) == Echo(lines)
  {
    if lines != [] {
      var line, rest := lines[0], lines[1..];
      CommandModeAcknowledgesEachLine(rest);
      var events := [Stdout(Puts(line)), ToClient(Puts(OkReply))];
      var tail := LoopTrace(false, rest);
      CannedReplies();
      assert LoopTrace(false, lines) == events + tail;
      SentAppend(events, tail);
      PrintedAppend(events, tail);
      assert Sent(events) == [OkReply] by {
        assert events[1..][1..] == [];
      }
      assert Printed(events) == [Puts(line)] by {
        assert events[1..][1..] == [];
      }
      assert seq(|lines|, _ => OkReply) == [OkReply] + seq(|rest|, _ => OkReply);
    }
  }

  /** Lines after the first `QUIT` are never read: they change nothing the server writes. */
  lemma {:induction false} NothingReadAfterQuit(readingData: bool, before: seq<Line>, after: seq<Line>)
    requires QuitCommand !in before
    ensures LoopTrace(readingData, before + [QuitCommand] + after) == LoopTrace(readingData, before + [QuitCommand])
    decreases |before|
  {
    if before == [] {
      assert ([QuitCommand] + after)[0] == QuitCommand;
    } else {
      var st := Dispatch(readingData, before[0]);
      assert (before + [QuitCommand] + after)[1..] == before[1..] + [QuitCommand] + after;
      assert (before + [QuitCommand])[1..] == before[1..] + [QuitCommand];
      NothingReadAfterQuit(st.readingData, before[1..], after);
    }
  }

  /** `QUIT` in either mode ends the session without a reply. */
  lemma QuitInEitherMode(readingData: bool, rest: seq<Line>)
    ensures LoopTrace(readingData, [QuitCommand] + rest) == [Stdout(Puts(QuitCommand))]
  {
  }

  /** Matching is exact: a lower-case command, or one ended by a bare newline, is an ordinary line. */
  lemma ExactMatchOnly(readingData: bool)
    ensures Dispatch(readingData, "DATA\n") == Step(readingData, if readingData then None else Some(OkReply), true)
    ensures Dispatch(readingData, "data\r\n") == Step(readingData, if readingData then None else Some(OkReply), true)
    ensures Dispatch(readingData, "QUIT\n") == Step(readingData, if readingData then None else Some(OkReply), true)
    ensures Dispatch(readingData, "quit\r\n") == Step(readingData, if readingData then None else Some(OkReply), true)
    ensures Dispatch(readingData, ".\n") == Step(readingData, if readingData then None else Some(OkReply), true)
  {
  }
}
