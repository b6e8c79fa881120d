/**
 * The replay script: it reads the lines the extraction script printed
 * (`<timestamp>: <issn>,<issn>,...`), rewrites timestamps written in the ETH
 * log format, requests the cover image of every ISSN from an image service
 * and stores it in a file, counts the requests per ISSN, keeps one request
 * time per line and, after the requests of every line but the first,
 * announces the pause between that line's timestamp and the previous one.
 * At the end it writes the request-time log and the ISSN log.
 *
 * The image service, `URI.encode`, the clock and the computed pause are
 * parameters (a `World`); files and the two output streams are values.
 */
module PlayIssnList {
  import opened Collections
  import opened Text

  // ------------------------------------------------------------------ options

  /** The options `-i`, `-r`, `-t`, `-d`, `-a` and `-u`, each absent or given. */
  datatype Options = Options(
    issnLog: Option<string>,
    requestTimeLog: Option<string>,
    timeFactor: Option<string>,
    imageDir: Option<string>,
    apiKey: Option<string>,
    imageUrl: Option<string>)

  const NoOptions: Options := Options(None, None, None, None, None, None)

  /** The script prints its usage line and stops exactly when a mandatory option is missing: the test for no options at all adds nothing. */
  function ShowsUsage(o: Options): (r: bool)
    ensures r <==> o.apiKey.None? || o.issnLog.None? || o.requestTimeLog.None? || o.imageUrl.None? || o.imageDir.None?
  {
    o.apiKey.None? || o.issnLog.None? || o.requestTimeLog.None? || o.imageUrl.None? || o.imageDir.None? || o == NoOptions
  }

  function Usage(script: string): string {
    "Usage: " + script + " -r <request-time-log> -i <issn-log> -d <image-dir> -a <api-key> -u image_service_url [-t <time-factor>]"
  }

  // ------------------------------------------------------------------ input lines

  /**
   * The pattern `^(.+?): (.+)` on a line, and the second group split at commas:
   * the timestamp is everything before the first `": "` found after the first
   * character, provided at least one character follows it.
   */
  function ParseReplayLine(line: Line): Option<(string, seq<string>)> {
    var b := Body(line);
    match Find(b, ": ", 1)
    case None => None
    case Some(k) => if k + 2 < |b| then Some((b[..k], Split(b[k + 2..], ','))) else None
  }

  /** A line is replayed exactly when some `": "` after its first character is followed by more text. */
  lemma ReplayLineMatches(line: Line)
    ensures ParseReplayLine(line).Some? <==>
              exists k :: 1 <= k && k + 2 < |Body(line)| && StartsAt(Body(line), k, ": ")
  {
    var b := Body(line);
    match Find(b, ": ", 1)
    case None =>
    case Some(k) =>
      if k + 2 < |b| {
        assert StartsAt(b, k, ": ");
      } else {
        forall j | 1 <= j && j + 2 < |b| ensures !StartsAt(b, j, ": ") {
        }
      }
  }

  /** `": "` does not start where either of its two characters is missing. */
  lemma NoSeparatorAt(s: string, i: nat)
    requires i + 2 <= |s| && (s[i] != ':' || s[i + 1] != ' ')
    ensures !StartsAt(s, i, ": ")
  {
    assert s[i..i + 2][0] == s[i] && s[i..i + 2][1] == s[i + 1];
  }

  /** After a timestamp in which no `": "` starts past its first character, the first `": "` is the one that follows it. */
  lemma SeparatorAfter(ts: string, rest: string)
    requires |ts| >= 1
    requires forall j :: 1 <= j < |ts| - 1 ==> ts[j] != ':' || ts[j + 1] != ' '
    ensures Find(ts + ": " + rest, ": ", 1) == Some(|ts|)
  {
    var s := ts + ": " + rest;
    assert StartsAt(s, |ts|, ": ") by { assert s[|ts|..|ts| + 2] == ": "; }
    forall i | 1 <= i < |ts| ensures !StartsAt(s, i, ": ") {
      if i + 1 < |ts| {
        assert s[i] == ts[i] && s[i + 1] == ts[i + 1];
      } else {
        assert s[i + 1] == ':';
      }
      NoSeparatorAt(s, i);
    }
  }

  /** A line whose text is a timestamp, the first `": "` and at least one more character. */
  lemma ParseAt(line: Line, ts: string, rest: string)
    requires Body(line) == ts + ": " + rest && |rest| >= 1
    requires Find(ts + ": " + rest, ": ", 1) == Some(|ts|)
    ensures ParseReplayLine(line) == Some((ts, Split(rest, ',')))
  {
    var b := ts + ": " + rest;
    assert b[..|ts|] == ts && b[|ts| + 2..] == rest;
  }

  /** The line `<timestamp>: <issn>,...,<issn>` the extraction script prints reads back as that timestamp and those ISSNs. */
  lemma ParseWritten(ts: string, fs: seq<string>)
    requires |ts| >= 1 && '\n' !in ts
    requires forall j :: 1 <= j < |ts| - 1 ==> ts[j] != ':' || ts[j + 1] != ' '
    requires |fs| >= 1 && fs[|fs| - 1] != ""
    requires forall i :: 0 <= i < |fs| ==> ',' !in fs[i] && '\n' !in fs[i]
    ensures IsLine(Puts(ts + ": " + Join(fs, ',')))
    ensures ParseReplayLine(Puts(ts + ": " + Join(fs, ','))) == Some((ts, fs))
  {
    var j := Join(fs, ',');
    var s := ts + ": " + j;
    assert '\n' !in s && |j| >= 1 by {
      JoinAvoids(fs, ',', '\n');
      JoinEndsWithLast(fs, ',');
      forall i | 0 <= i < |s| ensures s[i] != '\n' {
        if i < |ts| { assert s[i] == ts[i]; } else if i >= |ts| + 2 { assert s[i] == j[i - |ts| - 2]; }
      }
    }
    assert Puts(s) == s + "\n" && Body(s + "\n") == s;
    SeparatorAfter(ts, j);
    ParseAt(s + "\n", ts, j);
    SplitJoin(fs, ',');
  }

  // ------------------------------------------------------------------ ETH timestamps

  /** A non-empty run of decimal digits: what `(\d+)` captures. */
  predicate IsNumber(g: string) {
    |g| >= 1 && forall i :: 0 <= i < |g| ==> IsDigit(g[i])
  }

  /**
   * `n` groups `_(\d+)` matched from position `i`, each digit run as long as
   * possible (the next group needs a `_` after it, and the last one is greedy).
   */
  function DigitGroups(t: string, i: nat, n: nat): (r: Option<seq<string>>)
    requires i <= |t|
    ensures r.Some? ==> |r.value| == n && forall k :: 0 <= k < n ==> IsNumber(r.value[k])
    ensures r.Some? && n > 0 ==> i < |t| && t[i] == '_'
    decreases n
  {
    if n == 0 then Some([])
    else if i < |t| && t[i] == '_' then
      var e := SpanEnd(t, i + 1, Digit);
      if e == i + 1 then None
      else match DigitGroups(t, e, n - 1)
        case None => None
        case Some(gs) => Some([t[i + 1..e]] + gs)
    else None
  }

  /** The first position at or after `from` where `n` digit groups start: the end of the shortest `(.+?)`. */
  function FirstEth(t: string, from: nat, n: nat): (r: Option<nat>)
    ensures r.Some? ==> from <= r.value < |t| && DigitGroups(t, r.value, n).Some?
    ensures r.Some? ==> forall j :: from <= j < r.value ==> DigitGroups(t, j, n).None?
    ensures r.None? ==> forall j :: from <= j < |t| ==> DigitGroups(t, j, n).None?
    decreases |t| - from
  {
    if from >= |t| then None
    else if DigitGroups(t, from, n).Some? then Some(from)
    else FirstEth(t, from + 1, n)
  }

  /** `FirstEth` finds the first position where the groups start. */
  lemma FirstEthAt(t: string, from: nat, n: nat, j: nat)
    requires from <= j < |t| && DigitGroups(t, j, n).Some?
    requires forall i :: from <= i < j ==> DigitGroups(t, i, n).None?
    ensures FirstEth(t, from, n) == Some(j)
  {
  }

  /**
   * A timestamp matching `^(.+?)_(\d+)_(\d+)_(\d+)_(\d+)_(\d+)` becomes
   * `"$1 $2 $3:$4:$5 $6"`; whatever follows the fifth group is dropped.
   * Any other timestamp is kept as it is.
   */
  function RewriteTimestamp(t: string): string {
    match FirstEth(t, 1, 5)
    case None => t
    case Some(j) =>
      var g := DigitGroups(t, j, 5).value;
      t[..j] + " " + g[0] + " " + g[1] + ":" + g[2] + ":" + g[3] + " " + g[4]
  }

  /** `_g0_g1...`: the groups as they appear in an ETH timestamp. */
  function Underscored(gs: seq<string>): string {
    if gs == [] then "" else "_" + gs[0] + Underscored(gs[1..])
  }

  /** One group `_g` at position `i`, ending at `e` and followed by something that is not a digit: its digit run ends at `e`. */
  lemma OneGroup(t: string, i: nat, e: nat, g: string, tail: string)
    requires i <= |t| && t[i..] == "_" + g + tail && IsNumber(g) && e == i + 1 + |g|
    requires tail == [] || !IsDigit(tail[0])
    ensures i < |t| && t[i] == '_' && e <= |t|
    ensures SpanEnd(t, i + 1, Digit) == e
    ensures t[i + 1..e] == g && t[e..] == tail
  {
    assert t[i] == t[i..][0];
    assert t[e..] == tail by {
      assert t[e..] == t[i..][1 + |g|..];
    }
    assert t[i + 1..e] == g by {
      assert t[i + 1..e] == t[i..][1..1 + |g|];
    }
    forall j | i + 1 <= j < e ensures InClass(t[j], Digit) {
      assert t[j] == g[j - i - 1];
    }
    assert e == |t| || t[e] == tail[0];
  }

  /** A group `_g` at `i` whose digit run ends at `e`, then `m` more groups: `m + 1` groups. */
  lemma GroupsCons(t: string, i: nat, e: nat, m: nat, g: string, rest: seq<string>)
    requires i < |t| && t[i] == '_' && |g| >= 1 && e == i + 1 + |g| <= |t|
    requires SpanEnd(t, i + 1, Digit) == e && t[i + 1..e] == g
    requires DigitGroups(t, e, m) == Some(rest)
    ensures DigitGroups(t, i, m + 1) == Some([g] + rest)
  {
  }

  /** `Underscored` of a non-empty sequence: the first group, then the others. */
  lemma UnderscoredHead(gs: seq<string>, rest: string)
    requires gs != [] && forall k :: 0 <= k < |gs| ==> IsNumber(gs[k])
    requires rest == [] || !IsDigit(rest[0])
    ensures Underscored(gs) + rest == "_" + gs[0] + (Underscored(gs[1..]) + rest)
    ensures var tail := Underscored(gs[1..]) + rest; tail == [] || !IsDigit(tail[0])
    ensures forall k :: 0 <= k < |gs[1..]| ==> IsNumber(gs[1..][k])
  {
    var tail := Underscored(gs[1..]) + rest;
    if gs[1..] != [] {
      assert tail[0] == '_';
    }
    assert forall k :: 0 <= k < |gs| - 1 ==> gs[1..][k] == gs[k + 1];
  }

  /** Groups written with `Underscored` and followed by a non-digit are matched back as those groups. */
  lemma {:induction false} GroupsOf(t: string, i: nat, gs: seq<string>, rest: string)
    requires i <= |t| && t[i..] == Underscored(gs) + rest
    requires forall k :: 0 <= k < |gs| ==> IsNumber(gs[k])
    requires rest == [] || !IsDigit(rest[0])
    ensures DigitGroups(t, i, |gs|) == Some(gs)
    decreases |gs|
  {
    if gs != [] {
      var g, hs := gs[0], gs[1..];
      var tail, e, m := Underscored(hs) + rest, i + 1 + |g|, |hs|;
      UnderscoredHead(gs, rest);
      OneGroup(t, i, e, g, tail);
      GroupsOf(t, e, hs, rest);
      GroupsCons(t, i, e, m, g, hs);
      assert [g] + hs == gs;
    }
  }

  /** With no `_` before position `j`, groups found at `j` are the first found. */
  lemma FirstEthNoUnderscore(t: string, j: nat, n: nat)
    requires 1 <= j < |t| && n > 0 && DigitGroups(t, j, n).Some?
    requires forall i :: 1 <= i < j ==> t[i] != '_'
    ensures FirstEth(t, 1, n) == Some(j)
  {
    FirstEthAt(t, 1, n, j);
  }

  /** After a prefix without `_`, groups written with `Underscored` are the first place the groups match. */
  lemma FirstGroups(x: string, gs: seq<string>, rest: string)
    requires |x| >= 1 && '_' !in x && gs != []
    requires forall k :: 0 <= k < |gs| ==> IsNumber(gs[k])
    requires rest == [] || !IsDigit(rest[0])
    ensures FirstEth(x + (Underscored(gs) + rest), 1, |gs|) == Some(|x|)
    ensures DigitGroups(x + (Underscored(gs) + rest), |x|, |gs|) == Some(gs)
  {
    var u := Underscored(gs) + rest;
    var t, j, n := x + u, |x|, |gs|;
    PrefixAvoids(x, u, '_');
    assert t[j..] == u;
    GroupsOf(t, j, gs, rest);
    FirstEthNoUnderscore(t, j, n);
  }

  /** The ETH rewrite: a prefix without `_`, five digit groups and a tail that does not continue the last group. */
  lemma EthRewrite(x: string, gs: seq<string>, rest: string)
    requires |x| >= 1 && '_' !in x
    requires |gs| == 5 && forall k :: 0 <= k < 5 ==> IsNumber(gs[k])
    requires rest == [] || !IsDigit(rest[0])
    ensures RewriteTimestamp(x + Underscored(gs) + rest) ==
              x + " " + gs[0] + " " + gs[1] + ":" + gs[2] + ":" + gs[3] + " " + gs[4]
  {
    var u := Underscored(gs) + rest;
    assert x + Underscored(gs) + rest == x + u;
    FirstGroups(x, gs, rest);
    assert (x + u)[..|x|] == x;
  }

  /** A timestamp without `_` is not rewritten. */
  lemma NoUnderscoreUnchanged(t: string)
    requires '_' !in t
    ensures RewriteTimestamp(t) == t
  {
  }

  // ------------------------------------------------------------------ the world

  datatype Response = Response(code: int, body: string)

  /** One `request_times` entry: `Time.now` and the seconds the line took, as they print. */
  datatype RequestTime = RequestTime(at: string, took: string)

  /** What the script gets from outside. */
  datatype World = World(
    encode: string -> string,          // `URI.encode`
    fetch: string -> Response,         // `HTTParty.get`
    clock: nat -> RequestTime,         // the request time entry of the n-th replayed line
    delay: (string, string) -> string) // the pause printed between two original timestamps

  datatype Config = Config(imageUrl: string, apiKey: string, imageDir: string)

  function ImageRequest(cfg: Config, issn: string, w: World): string {
    w.encode(cfg.imageUrl + "/api/" + cfg.apiKey + "/" + issn + "/native.png")
  }

  function ImageFile(cfg: Config, issn: string): string {
    cfg.imageDir + "/" + issn + ".png"
  }

  /** The statuses the script accepts without comment. */
  predicate AcceptedStatus(code: int) {
    code == 200 || code == 404
  }

  /** The standard error line for a status other than 200 and 404. */
  function Complaint(issn: string, code: int): (r: seq<string>)
    ensures r == [] <==> AcceptedStatus(code)
  {
    if AcceptedStatus(code) then [] else [Puts("HTTP " + IntString(code) + " for ISSN " + issn)]
  }

  function Status(cfg: Config, issn: string, w: World): int {
    w.fetch(ImageRequest(cfg, issn, w)).code
  }

  /** Everything written on standard error while `issns` are requested, in order. */
  function Complaints(cfg: Config, issns: seq<string>, w: World): seq<string> {
    if issns == [] then []
    else
      var last := issns[|issns| - 1];
      Complaints(cfg, issns[..|issns| - 1], w) + Complaint(last, Status(cfg, last, w))
  }

  /** The complaint of one ISSN, as a function value. */
  function ComplaintOf(cfg: Config, w: World): string -> seq<string> {
    (issn: string) => Complaint(issn, Status(cfg, issn, w))
  }

  /** `Complaints` is the complaint of each ISSN, concatenated. */
  lemma {:induction false} ComplaintsConcat(cfg: Config, issns: seq<string>, w: World)
    ensures Complaints(cfg, issns, w) == ConcatMap(ComplaintOf(cfg, w), issns)
  {
    if issns != [] {
      var k := |issns| - 1;
      ComplaintsConcat(cfg, issns[..k], w);
      ConcatMapSnoc(ComplaintOf(cfg, w), issns, k);
      assert issns[..k + 1] == issns;
    }
  }

  /** Nothing is written on standard error exactly when every status is 200 or 404. */
  lemma ComplaintsIff(cfg: Config, issns: seq<string>, w: World)
    ensures Complaints(cfg, issns, w) == [] <==>
              forall k :: 0 <= k < |issns| ==> AcceptedStatus(Status(cfg, issns[k], w))
  {
    ComplaintsConcat(cfg, issns, w);
    ConcatMapEmpty(ComplaintOf(cfg, w), issns);
  }

  /**
   * The image files after `issns` are requested: each response body is written
   * to the ISSN's file, a later write replacing an earlier one.
   */
  function Saved(images: map<string, string>, cfg: Config, issns: seq<string>, w: World): map<string, string> {
    if issns == [] then images
    else
      var last := issns[|issns| - 1];
      Saved(images, cfg, issns[..|issns| - 1], w)[ImageFile(cfg, last) := w.fetch(ImageRequest(cfg, last, w)).body]
  }

  /**
   * Every requested ISSN has its file, every file there before is still
   * there, and the last ISSN's file holds its response body.
   */
  lemma {:induction false} SavedFiles(images: map<string, string>, cfg: Config, issns: seq<string>, w: World)
    ensures forall k :: 0 <= k < |issns| ==> ImageFile(cfg, issns[k]) in Saved(images, cfg, issns, w)
    ensures forall f :: f in images ==> f in Saved(images, cfg, issns, w)
    ensures issns != [] ==>
              Saved(images, cfg, issns, w)[ImageFile(cfg, issns[|issns| - 1])]
                == w.fetch(ImageRequest(cfg, issns[|issns| - 1], w)).body
  {
    if issns != [] {
      var p := issns[..|issns| - 1];
      SavedFiles(images, cfg, p, w);
      assert forall k :: 0 <= k < |p| ==> issns[k] == p[k];
    }
  }

  /** A file no requested ISSN names keeps its content. */
  lemma {:induction false} SavedUntouched(images: map<string, string>, cfg: Config, issns: seq<string>, w: World, f: string)
    requires f in images
    requires forall k :: 0 <= k < |issns| ==> ImageFile(cfg, issns[k]) != f
    ensures f in Saved(images, cfg, issns, w) && Saved(images, cfg, issns, w)[f] == images[f]
  {
    if issns != [] {
      SavedUntouched(images, cfg, issns[..|issns| - 1], w, f);
    }
  }

  /** `Complaints` over `a + b`. */
  lemma ComplaintsAppend(cfg: Config, a: seq<string>, b: seq<string>, w: World)
    ensures Complaints(cfg, a + b, w) == Complaints(cfg, a, w) + Complaints(cfg, b, w)
  {
    ComplaintsConcat(cfg, a + b, w);
    ComplaintsConcat(cfg, a, w);
    ComplaintsConcat(cfg, b, w);
    ConcatMapAppend(ComplaintOf(cfg, w), a, b);
  }

  /** `Saved` over `a + b`. */
  lemma {:induction false} SavedAppend(images: map<string, string>, cfg: Config, a: seq<string>, b: seq<string>, w: World)
    ensures Saved(Saved(images, cfg, a, w), cfg, b, w) == Saved(images, cfg, a + b, w)
    decreases |b|
  {
    if b == [] {
      assert a + b == a;
    } else {
      var p, ab := b[..|b| - 1], a + b;
      SavedAppend(images, cfg, a, p, w);
      assert ab[..|ab| - 1] == a + p && ab[|ab| - 1] == b[|b| - 1];
    }
  }

  /** Requesting one more ISSN of a line writes its response body to its file. */
  lemma SavedSnoc(images0: map<string, string>, cfg: Config, issns: seq<string>, i: nat, w: World,
                  images: map<string, string>, images': map<string, string>)
    requires i < |issns| && images == Saved(images0, cfg, issns[..i], w)
    requires images' == images[ImageFile(cfg, issns[i]) := w.fetch(ImageRequest(cfg, issns[i], w)).body]
    ensures images' == Saved(images0, cfg, issns[..i + 1], w)
  {
    assert issns[..i + 1][..i] == issns[..i];
  }

  /** Requesting one more ISSN of a line adds its complaint, if any. */
  lemma ComplaintsSnoc(stderr0: seq<string>, cfg: Config, issns: seq<string>, i: nat, w: World,
                       stderr: seq<string>, stderr': seq<string>)
    requires i < |issns| && stderr == stderr0 + Complaints(cfg, issns[..i], w)
    requires stderr' == stderr + Complaint(issns[i], Status(cfg, issns[i], w))
    ensures stderr' == stderr0 + Complaints(cfg, issns[..i + 1], w)
  {
    assert issns[..i + 1][..i] == issns[..i];
  }

  // ------------------------------------------------------------------ replayed lines

  /** A replayed line: its timestamp after the ETH rewrite, and its ISSNs. */
  datatype Request = Request(timestamp: string, issns: seq<string>)

  function Entry(line: Line): Option<Request> {
    match ParseReplayLine(line)
    case None => None
    case Some((ts, issns)) => Some(Request(RewriteTimestamp(ts), issns))
  }

  /** The requests of `lines`, in order; lines the pattern does not match are skipped. */
  function Entries(lines: seq<Line>): (es: seq<Request>)
    ensures |es| <= |lines|
    ensures (forall i :: 0 <= i < |lines| ==> Entry(lines[i]).Some?) ==> |es| == |lines|
    ensures (forall i :: 0 <= i < |lines| ==> Entry(lines[i]).None?) ==> es == []
  {
    if lines == [] then []
    else
      var p := lines[..|lines| - 1];
      assert forall i :: 0 <= i < |p| ==> p[i] == lines[i];
      Entries(p) + OptionSeq(Entry(lines[|lines| - 1]))
  }

  /** Every ISSN of every request, in order. */
  function AllIssns(es: seq<Request>): seq<string> {
    if es == [] then [] else AllIssns(es[..|es| - 1]) + es[|es| - 1].issns
  }

  function Stamps(es: seq<Request>): seq<string> {
    seq(|es|, i requires 0 <= i < |es| => es[i].timestamp)
  }

  /** The announcement printed after the requests stamped `current`: the pause between `previous` and `current`. */
  function Notice(previous: string, current: string, w: World): string {
    Puts("Next request (original time: " + current + ") in " + w.delay(previous, current) + " seconds")
  }

  /** The announcements for timestamps `ts`: one after every request but the first. */
  function Notices(ts: seq<string>, w: World): seq<string> {
    if |ts| <= 1 then [] else Notices(ts[..|ts| - 1], w) + [Notice(ts[|ts| - 2], ts[|ts| - 1], w)]
  }

  /** One notice for each pair of consecutive timestamps. */
  lemma {:induction false} NoticesLength(ts: seq<string>, w: World)
    ensures |Notices(ts, w)| == if ts == [] then 0 else |ts| - 1
  {
    if |ts| > 1 {
      NoticesLength(ts[..|ts| - 1], w);
    }
  }

  /** The `k`-th notice announces timestamp `k + 1`, with the delay since timestamp `k`. */
  lemma {:induction false} NoticeAt(ts: seq<string>, w: World, k: nat)
    requires k + 1 < |ts|
    ensures k < |Notices(ts, w)| && Notices(ts, w)[k] == Notice(ts[k], ts[k + 1], w)
  {
    var p, a, b := ts[..|ts| - 1], ts[|ts| - 2], ts[|ts| - 1];
    var q := Notices(p, w);
    NoticesLength(p, w);
    assert Notices(ts, w) == q + [Notice(a, b, w)];
    if k + 2 < |ts| {
      NoticeAt(p, w, k);
      assert p[k] == ts[k] && p[k + 1] == ts[k + 1];
    }
  }

  function Readings(w: World, n: nat): seq<RequestTime> {
    seq(n, i requires 0 <= i => w.clock(i))
  }

  function LastStamp(es: seq<Request>): Option<string> {
    if es == [] then None else Some(es[|es| - 1].timestamp)
  }

  /** The script's variables and what it has written so far. */
  datatype ReplayState = ReplayState(
    issnStats: map<string, nat>,
    issnOrder: seq<string>,       // the insertion order of `issn_stats`
    requestTimes: seq<RequestTime>,
    previousTimestamp: Option<string>,
    stdout: seq<string>,
    stderr: seq<string>,
    images: map<string, string>)

  const Start: ReplayState := ReplayState(map[], [], [], None, [], [], map[])

  /** The state after replaying `es`, stated outright. */
  function Replayed(cfg: Config, w: World, es: seq<Request>): ReplayState {
    var all := AllIssns(es);
    ReplayState(Tally(map[], all), Distinct(all), Readings(w, |es|), LastStamp(es),
                Notices(Stamps(es), w), Complaints(cfg, all, w), Saved(map[], cfg, all, w))
  }

  /** `s` is the state after replaying `es`, field by field. */
  ghost predicate Replays(cfg: Config, w: World, es: seq<Request>, s: ReplayState) {
    var all := AllIssns(es);
    && s.issnStats == Tally(map[], all) && s.issnOrder == Distinct(all)
    && s.requestTimes == Readings(w, |es|) && s.previousTimestamp == LastStamp(es)
    && s.stdout == Notices(Stamps(es), w) && s.stderr == Complaints(cfg, all, w)
    && s.images == Saved(map[], cfg, all, w)
  }

  /** `t` is `s` after one replayed line `e`. */
  ghost predicate Advanced(cfg: Config, w: World, s: ReplayState, e: Request, t: ReplayState) {
    && t.issnStats == Tally(s.issnStats, e.issns)
    && t.issnOrder == Remember(s.issnOrder, e.issns)
    && t.images == Saved(s.images, cfg, e.issns, w)
    && t.stderr == s.stderr + Complaints(cfg, e.issns, w)
    && t.requestTimes == s.requestTimes + [w.clock(|s.requestTimes|)]
    && t.stdout == s.stdout + (if s.previousTimestamp.Some? then [Notice(s.previousTimestamp.value, e.timestamp, w)] else [])
    && t.previousTimestamp == Some(e.timestamp)
  }

  /** `t` is `s` after one input line: a request advances the state, any other line leaves it alone. */
  ghost predicate Played(cfg: Config, w: World, s: ReplayState, line: Line, t: ReplayState) {
    match Entry(line)
    case None => t == s
    case Some(e) => Advanced(cfg, w, s, e, t)
  }

  /** `Replays` pins the state down: it is the closed form. */
  lemma ReplaysReplayed(cfg: Config, w: World, es: seq<Request>, s: ReplayState)
    requires Replays(cfg, w, es, s)
    ensures s == Replayed(cfg, w, es)
  {
  }

  /** One more request: its ISSNs and timestamp come last. */
  lemma RequestsSnoc(es: seq<Request>, e: Request)
    ensures AllIssns(es + [e]) == AllIssns(es) + e.issns
    ensures Stamps(es + [e]) == Stamps(es) + [e.timestamp]
    ensures LastStamp(es + [e]) == Some(e.timestamp)
  {
    assert (es + [e])[..|es|] == es;
  }

  lemma ReadingsSnoc(w: World, n: nat)
    ensures Readings(w, n + 1) == Readings(w, n) + [w.clock(n)]
  {
  }

  /** One more timestamp: announced when there was one before it. */
  lemma NoticesSnoc(ts: seq<string>, t: string, w: World)
    ensures Notices(ts + [t], w) == Notices(ts, w) + (if ts != [] then [Notice(ts[|ts| - 1], t, w)] else [])
  {
    var ts' := ts + [t];
    assert ts'[..|ts'| - 1] == ts;
  }

  /** The counters and their key order after one more request. */
  lemma AdvanceCounts(es: seq<Request>, e: Request, stats: map<string, nat>, order: seq<string>,
                      stats': map<string, nat>, order': seq<string>)
    requires stats == Tally(map[], AllIssns(es)) && order == Distinct(AllIssns(es))
    requires stats' == Tally(stats, e.issns) && order' == Remember(order, e.issns)
    ensures stats' == Tally(map[], AllIssns(es + [e])) && order' == Distinct(AllIssns(es + [e]))
  {
    RequestsSnoc(es, e);
    TallyAppend(map[], AllIssns(es), e.issns);
    RememberAppend([], AllIssns(es), e.issns);
  }

  /** Standard error and the image files after one more request. */
  lemma AdvanceFiles(cfg: Config, w: World, es: seq<Request>, e: Request,
                     stderr: seq<string>, images: map<string, string>, stderr': seq<string>, images': map<string, string>)
    requires stderr == Complaints(cfg, AllIssns(es), w) && images == Saved(map[], cfg, AllIssns(es), w)
    requires stderr' == stderr + Complaints(cfg, e.issns, w) && images' == Saved(images, cfg, e.issns, w)
    ensures stderr' == Complaints(cfg, AllIssns(es + [e]), w) && images' == Saved(map[], cfg, AllIssns(es + [e]), w)
  {
    RequestsSnoc(es, e);
    ComplaintsAppend(cfg, AllIssns(es), e.issns, w);
    SavedAppend(map[], cfg, AllIssns(es), e.issns, w);
  }

  /** The previous timestamp is the last of the stamps, when there is one. */
  lemma LastOfStamps(es: seq<Request>)
    ensures LastStamp(es).Some? <==> Stamps(es) != []
    ensures LastStamp(es).Some? ==> LastStamp(es).value == Stamps(es)[|Stamps(es)| - 1]
  {
  }

  /** Standard output after one more request. */
  lemma AdvanceOutput(w: World, es: seq<Request>, e: Request, previous: Option<string>, stdout: seq<string>, stdout': seq<string>)
    requires previous == LastStamp(es) && stdout == Notices(Stamps(es), w)
    requires stdout' == stdout + (if previous.Some? then [Notice(previous.value, e.timestamp, w)] else [])
    ensures stdout' == Notices(Stamps(es + [e]), w)
  {
    RequestsSnoc(es, e);
    LastOfStamps(es);
    NoticesSnoc(Stamps(es), e.timestamp, w);
  }

  /** The request times after one more request. */
  lemma AdvanceTimes(w: World, es: seq<Request>, rts: seq<RequestTime>, rts': seq<RequestTime>)
    requires rts == Readings(w, |es|) && rts' == rts + [w.clock(|rts|)]
    ensures rts' == Readings(w, |es| + 1)
  {
    ReadingsSnoc(w, |es|);
  }

  /** Replaying one more line step by step agrees with the closed form. */
  lemma AdvanceReplayed(cfg: Config, w: World, es: seq<Request>, e: Request, s: ReplayState, t: ReplayState)
    requires Replays(cfg, w, es, s) && Advanced(cfg, w, s, e, t)
    ensures Replays(cfg, w, es + [e], t)
  {
    AdvanceCounts(es, e, s.issnStats, s.issnOrder, t.issnStats, t.issnOrder);
    AdvanceFiles(cfg, w, es, e, s.stderr, s.images, t.stderr, t.images);
    AdvanceOutput(w, es, e, s.previousTimestamp, s.stdout, t.stdout);
    AdvanceTimes(w, es, s.requestTimes, t.requestTimes);
    RequestsSnoc(es, e);
  }

  /**
   * After ISSNs `all` have been requested, in order, from empty counters: each
   * counter holds the number of requests for its ISSN, and the counters exist,
   * in the order of first request, for exactly the requested ISSNs.
   */
  lemma ReplayCounts(all: seq<string>)
    ensures forall x :: Get(Tally(map[], all), x) == Count(all, x)
    ensures forall x :: x in Tally(map[], all) <==> x in all
    ensures forall x :: x in Distinct(all) <==> x in all
    ensures NoDuplicates(Distinct(all))
  {
    TallyCounts(map[], all);
    DistinctFirstOccurrences(all);
  }

  /** The replayed counters and their key order hold the same ISSNs. */
  lemma ReplayedSameKeys(cfg: Config, w: World, es: seq<Request>, s: ReplayState)
    requires Replays(cfg, w, es, s)
    ensures SameKeys(s.issnStats, s.issnOrder)
  {
    ReplayCounts(AllIssns(es));
  }

  /** Reading one more line adds its request, if it has one. */
  lemma EntriesSnoc(lines: seq<Line>, i: nat)
    requires i < |lines|
    ensures Entries(lines[..i + 1]) == Entries(lines[..i]) + OptionSeq(Entry(lines[i]))
  {
    assert lines[..i + 1][..i] == lines[..i];
  }

  /** Replaying line `i` after the lines before it: an ignored line changes nothing, a request advances the state. */
  lemma ReplayStep(cfg: Config, w: World, lines: seq<Line>, i: nat, s: ReplayState, t: ReplayState)
    requires i < |lines| && Replays(cfg, w, Entries(lines[..i]), s) && Played(cfg, w, s, lines[i], t)
    ensures Replays(cfg, w, Entries(lines[..i + 1]), t)
  {
    var es := Entries(lines[..i]);
    EntriesSnoc(lines, i);
    match Entry(lines[i]) {
      case None =>
        assert es + [] == es;
      case Some(e) =>
        AdvanceReplayed(cfg, w, es, e, s, t);
    }
  }

  // ------------------------------------------------------------------ logs

  /** The ISSN log: `<issn>: <counter>` for each entry of `issn_stats`, in insertion order. */
  function IssnLogLines(stats: map<string, nat>, order: seq<string>): seq<string> {
    seq(|order|, i requires 0 <= i < |order| => Puts(order[i] + ": " + Decimal(Get(stats, order[i]))))
  }

  /** The request-time log: `<time>: <seconds>` for each request time, in order. */
  function RequestTimeLines(rts: seq<RequestTime>): seq<string> {
    seq(|rts|, i requires 0 <= i < |rts| => Puts(rts[i].at + ": " + rts[i].took))
  }

  /**
   * The ISSN log after ISSNs `all` have been requested has one line per
   * distinct ISSN, in the order of first request, each with the number of
   * times that ISSN was requested.
   */
  lemma IssnLogCounts(all: seq<string>)
    ensures var order := Distinct(all);
            var ls := IssnLogLines(Tally(map[], all), order);
            |ls| == |order| && NoDuplicates(order)
            && (forall x :: x in order <==> x in all)
            && (forall i, j :: 0 <= i < j < |order| ==> FirstIndex(all, order[i]) < FirstIndex(all, order[j]))
            && (forall i :: 0 <= i < |ls| ==> ls[i] == Puts(order[i] + ": " + Decimal(Count(all, order[i]))))
  {
    TallyCounts(map[], all);
    DistinctFirstOccurrences(all);
  }

  // ------------------------------------------------------------------ the script

  /** The representation of a Ruby Hash by its entries and its key order: the same keys. */
  ghost predicate SameKeys(stats: map<string, nat>, order: seq<string>) {
    forall x :: x in stats <==> x in order
  }

  /** The counter update for one ISSN: a new ISSN gets an entry at 0, then its entry grows by 1. */
  method CountRequest(stats: map<string, nat>, order: seq<string>, issn: string)
    returns (stats': map<string, nat>, order': seq<string>)
    requires SameKeys(stats, order)
    ensures SameKeys(stats', order')
    ensures stats' == stats[issn := Get(stats, issn) + 1] && order' == AppendNew(order, issn)
  {
    stats', order' := stats, order;
    if issn !in stats' {
      stats' := stats'[issn := 0];
      order' := order' + [issn];
    }
    stats' := stats'[issn := stats'[issn] + 1];
  }

  /**
   * `t'` is `t` after one ISSN: its image saved under its file name, its
   * complaint (if any) on stderr, and its counter and key order updated.
   */
  ghost predicate IssnStep(cfg: Config, w: World, issn: string, t: ReplayState, t': ReplayState) {
    && t'.issnStats == t.issnStats[issn := Get(t.issnStats, issn) + 1]
    && t'.issnOrder == AppendNew(t.issnOrder, issn)
    && t'.images == t.images[ImageFile(cfg, issn) := w.fetch(ImageRequest(cfg, issn, w)).body]
    && t'.stderr == t.stderr + Complaint(issn, Status(cfg, issn, w))
    && t'.requestTimes == t.requestTimes && t'.previousTimestamp == t.previousTimestamp && t'.stdout == t.stdout
  }

  /** One ISSN: request its image, write the body to its file, complain about an unexpected status, count the ISSN. */
  method FetchImage(cfg: Config, w: World, issn: string, t: ReplayState) returns (t': ReplayState)
    requires SameKeys(t.issnStats, t.issnOrder)
    ensures SameKeys(t'.issnStats, t'.issnOrder)
    ensures IssnStep(cfg, w, issn, t, t')
  {
    var response := w.fetch(ImageRequest(cfg, issn, w));
    var stderr := t.stderr;
    if !AcceptedStatus(response.code) {
      stderr := stderr + [Puts("HTTP " + IntString(response.code) + " for ISSN " + issn)];
    }
    var stats, order := CountRequest(t.issnStats, t.issnOrder, issn);
    t' := t.(issnStats := stats, issnOrder := order,
             images := t.images[ImageFile(cfg, issn) := response.body], stderr := stderr);
  }

  /** `t` is `s` after the ISSNs `done` of a line have been requested, saved, complained about and counted. */
  ghost predicate Fetched(cfg: Config, w: World, done: seq<string>, s: ReplayState, t: ReplayState) {
    && t.issnStats == Tally(s.issnStats, done)
    && t.issnOrder == Remember(s.issnOrder, done)
    && t.images == Saved(s.images, cfg, done, w)
    && t.stderr == s.stderr + Complaints(cfg, done, w)
    && t.requestTimes == s.requestTimes && t.previousTimestamp == s.previousTimestamp && t.stdout == s.stdout
  }

  /** One more ISSN through `FetchImage` extends the ISSNs done by one. */
  lemma FetchStep(cfg: Config, w: World, issns: seq<string>, i: nat, s: ReplayState, t: ReplayState, t': ReplayState)
    requires i < |issns| && Fetched(cfg, w, issns[..i], s, t)
    requires IssnStep(cfg, w, issns[i], t, t')
    ensures Fetched(cfg, w, issns[..i + 1], s, t')
  {
    TallySnoc(s.issnStats, issns, i, t.issnStats, t'.issnStats);
    RememberSnoc(s.issnOrder, issns, i, t.issnOrder, t'.issnOrder);
    SavedSnoc(s.images, cfg, issns, i, w, t.images, t'.images);
    ComplaintsSnoc(s.stderr, cfg, issns, i, w, t.stderr, t'.stderr);
  }

  /** The ISSNs of one line, in order. */
  method FetchImages(cfg: Config, w: World, issns: seq<string>, s: ReplayState) returns (t: ReplayState)
    requires SameKeys(s.issnStats, s.issnOrder)
    ensures SameKeys(t.issnStats, t.issnOrder)
    ensures Fetched(cfg, w, issns, s, t)
  {
    t := s;
    var i := 0;
    while i < |issns|
      invariant i <= |issns| && SameKeys(t.issnStats, t.issnOrder)
      invariant Fetched(cfg, w, issns[..i], s, t)
    {
      var t' := FetchImage(cfg, w, issns[i], t);
      FetchStep(cfg, w, issns, i, s, t, t');
      t, i := t', i + 1;
    }
    assert issns[..i] == issns;
  }

  /** One input line: replayed when it matches, ignored otherwise. */
  method PlayLine(cfg: Config, w: World, s: ReplayState, line: Line) returns (t: ReplayState)
    requires SameKeys(s.issnStats, s.issnOrder)
    ensures SameKeys(t.issnStats, t.issnOrder)
    ensures Played(cfg, w, s, line, t)
  {
    t := s;
    match ParseReplayLine(line) {
      case None =>
      case Some((ts, issns)) =>
        var timestamp := RewriteTimestamp(ts);
        t := FetchImages(cfg, w, issns, t);
        t := t.(requestTimes := t.requestTimes + [w.clock(|t.requestTimes|)]);
        if t.previousTimestamp.Some? {
          t := t.(stdout := t.stdout + [Notice(t.previousTimestamp.value, timestamp, w)]);
        }
        t := t.(previousTimestamp := Some(timestamp));
    }
  }

  /** The content written to the ISSN log file: one line per entry of the counters, in their order. */
  method IssnLog(stats: map<string, nat>, order: seq<string>) returns (text: string)
    requires SameKeys(stats, order)
    ensures text == Concat(IssnLogLines(stats, order))
  {
    ghost var ls := IssnLogLines(stats, order);
    text := "";
    var i := 0;
    while i < |order|
      invariant i <= |order|
      invariant text == Concat(ls[..i])
    {
      var issn := order[i];
      ConcatSnoc(ls, i);
      text := text + Puts(issn + ": " + Decimal(stats[issn]));
      i := i + 1;
    }
    assert ls[..i] == ls;
  }

  /** The content written to the request-time log file: one line per request time, in order. */
  method RequestTimeLog(rts: seq<RequestTime>) returns (text: string)
    ensures text == Concat(RequestTimeLines(rts))
  {
    ghost var ls := RequestTimeLines(rts);
    text := "";
    var i := 0;
    while i < |rts|
      invariant i <= |rts|
      invariant text == Concat(ls[..i])
    {
      ConcatSnoc(ls, i);
      text := text + Puts(rts[i].at + ": " + rts[i].took);
      i := i + 1;
    }
    assert ls[..i] == ls;
  }

  /** Every line of standard input, in order, from the initial state. */
  method ReplayAll(cfg: Config, w: World, lines: seq<Line>) returns (s: ReplayState)
    ensures SameKeys(s.issnStats, s.issnOrder)
    ensures s == Replayed(cfg, w, Entries(lines))
  {
    s := Start;
    assert Entries(lines[..0]) == [];
    var i := 0;
    while i < |lines|
      invariant i <= |lines| && Replays(cfg, w, Entries(lines[..i]), s)
    {
      ReplayedSameKeys(cfg, w, Entries(lines[..i]), s);
      var t := PlayLine(cfg, w, s, lines[i]);
      ReplayStep(cfg, w, lines, i, s, t);
      s, i := t, i + 1;
    }
    assert lines[..i] == lines;
    ReplayedSameKeys(cfg, w, Entries(lines), s);
    ReplaysReplayed(cfg, w, Entries(lines), s);
  }

  /**
   * The whole script: the usage line when an option is missing; otherwise every
   * line of standard input replayed in order, then the request-time log and the
   * ISSN log written, in that order, over whatever the image files left.
   */
  method Run(script: string, opts: Options, lines: seq<Line>, w: World)
    returns (stdout: seq<string>, stderr: seq<string>, files: map<string, string>)
    ensures ShowsUsage(opts) ==> stdout == [Puts(Usage(script))] && stderr == [] && files == map[]
    ensures !ShowsUsage(opts) ==>
              var s := Replayed(Config(opts.imageUrl.value, opts.apiKey.value, opts.imageDir.value), w, Entries(lines));
              stdout == s.stdout && stderr == s.stderr
              && files == s.images[opts.requestTimeLog.value := Concat(RequestTimeLines(s.requestTimes))]
                                  [opts.issnLog.value := Concat(IssnLogLines(s.issnStats, s.issnOrder))]
  {
    if ShowsUsage(opts) {
      stdout, stderr, files := [Puts(Usage(script))], [], map[];
    } else {
      var cfg := Config(opts.imageUrl.value, opts.apiKey.value, opts.imageDir.value);
      var s := ReplayAll(cfg, w, lines);
      var requestTimeText := RequestTimeLog(s.requestTimes);
      var issnText := IssnLog(s.issnStats, s.issnOrder);
      files := s.images[opts.requestTimeLog.value := requestTimeText][opts.issnLog.value := issnText];
      stdout, stderr := s.stdout, s.stderr;
    }
  }
}
