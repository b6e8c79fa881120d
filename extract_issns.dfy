/**
 * The ISSN extraction script: it groups the query log read from standard
 * input into queries (a header line, then continuation lines), asks the
 * search backend for each query's result page, and prints the ISSNs found
 * in that page, or reports the query as empty.
 *
 * Within a page, every `<inf:cluster>` contributes the ISSNs of one chosen
 * member: its `publisher` member, else its `database` member, else its first
 * member. Within a member, every `<journal>` block contributes the value of
 * its first `<issn>` or `<eissn>` element.
 */
module ExtractIssns {
  import opened Collections
  import opened Text
  import opened Scanning

  const JournalPattern: Pattern := Element("<journal>", "</journal>", true)
  const IssnElement: Pattern := Element("<issn>", "</issn>", false)
  const EissnElement: Pattern := Element("<eissn>", "</eissn>", false)
  const IssnPattern: Pattern := Alt(IssnElement, EissnElement)
  const ClusterPattern: Pattern := Tagged("<inf:cluster ", "</inf:cluster>")
  const MemberPattern: Pattern := Tagged("<inf:member ", "</inf:member>")
  const TypePattern: Pattern := Element("type=\"", "\"", false)

  const Publisher: string := "publisher"
  const Database: string := "database"

  // ---------------------------------------------------------------------
  // extract_issns: one value per journal block

  /** The value of the first `<issn>` or `<eissn>` element of a journal block: the scan stops after its first match. */
  function FirstIssn(journal: string): (r: Option<string>)
    ensures r.Some? ==> '\n' !in r.value
  {
    match Leftmost(journal, IssnPattern, 0)
    case None => None
    case Some((p, m)) =>
      SingleLineContent(journal, p, IssnPattern);
      Some(m.content)
  }

  /** `FirstIssn` finds the element that starts leftmost, and finds nothing only when no position starts an element. */
  lemma FirstIssnIsLeftmost(journal: string)
    ensures FirstIssn(journal).None? <==> forall p :: 0 <= p <= |journal| ==> MatchAt(journal, p, IssnPattern).None?
    ensures FirstIssn(journal).Some? ==>
              exists p :: 0 <= p <= |journal| && MatchAt(journal, p, IssnPattern).Some?
                          && MatchAt(journal, p, IssnPattern).value.content == FirstIssn(journal).value
                          && forall q :: 0 <= q < p ==> MatchAt(journal, q, IssnPattern).None?
  {
    match Leftmost(journal, IssnPattern, 0)
    case None =>
    case Some((p, m)) =>
      assert MatchAt(journal, p, IssnPattern).Some?;
  }

  /** What `extract_issns` collects from the given journal blocks: at most one value per block. */
  function IssnsOfJournals(journals: seq<string>): (r: seq<string>)
    ensures |r| <= |journals|
    ensures forall i :: 0 <= i < |r| ==> '\n' !in r[i]
  {
    if journals == [] then [] else OptionSeq(FirstIssn(journals[0])) + IssnsOfJournals(journals[1..])
  }

  /** Every value collected is the first ISSN of some block, and every block that has one contributes it. */
  lemma {:induction false} IssnsOfJournalsMembers(journals: seq<string>)
    ensures forall x :: x in IssnsOfJournals(journals) ==> exists j :: j in journals && FirstIssn(j) == Some(x)
    ensures forall j :: j in journals && FirstIssn(j).Some? ==> FirstIssn(j).value in IssnsOfJournals(journals)
  {
    if journals != [] {
      IssnsOfJournalsMembers(journals[1..]);
      assert forall j :: j in journals[1..] ==> j in journals;
      assert forall j :: j in journals ==> j == journals[0] || j in journals[1..];
    }
  }

  /** The contents of the `<journal>` blocks of a member, in document order. */
  function Journals(memberXml: string): seq<string> {
    Contents(ScanFrom(memberXml, JournalPattern, 0))
  }

  /** Journal blocks contribute in document order: the values for `a + b` are those for `a`, then those for `b`. */
  lemma {:induction false} IssnsOfJournalsAppend(a: seq<string>, b: seq<string>)
    ensures IssnsOfJournals(a + b) == IssnsOfJournals(a) + IssnsOfJournals(b)
  {
    if a == [] {
      assert a + b == b;
    } else {
      assert (a + b)[0] == a[0];
      assert (a + b)[1..] == a[1..] + b;
      IssnsOfJournalsAppend(a[1..], b);
    }
  }

  /** A journal block holding neither tag contributes nothing. */
  lemma NoTagNoIssn(journal: string)
    requires forall p :: !StartsAt(journal, p, "<issn>") && !StartsAt(journal, p, "<eissn>")
    ensures FirstIssn(journal) == None
  {
    forall p | 0 <= p <= |journal| ensures MatchAt(journal, p, IssnPattern).None? {
      assert !StartsAt(journal, p, "<issn>") && !StartsAt(journal, p, "<eissn>");
    }
  }

  /** The element an `<issn>` or `<eissn>` value is written in. */
  function IssnTag(eissn: bool): Pattern {
    if eissn then EissnElement else IssnElement
  }

  /**
   * The first element wins: when no `<issn>` or `<eissn>` element matches
   * in the text before an element of either kind, whatever else stands
   * there (a `<title>`, say), the value taken is that element's content,
   * whatever follows it.
   */
  lemma FirstElementWins(pre: string, eissn: bool, c: string, post: string)
    requires '\n' !in c
    requires ClosesOnlyAtEnd(c, IssnTag(eissn).close)
    requires forall q :: 0 <= q < |pre| ==>
               MatchAt(pre + IssnTag(eissn).open + c + IssnTag(eissn).close + post, q, IssnPattern).None?
    ensures FirstIssn(pre + IssnTag(eissn).open + c + IssnTag(eissn).close + post) == Some(c)
  {
    var s := pre + IssnTag(eissn).open + c + IssnTag(eissn).close + post;
    IssnAfter(pre, eissn, c, post);
    LeftmostAt(s, IssnPattern, 0, |pre|);
  }

  /** The element standing right after `pre` matches the ISSN pattern there. */
  lemma IssnAfter(pre: string, eissn: bool, c: string, post: string)
    requires '\n' !in c && ClosesOnlyAtEnd(c, IssnTag(eissn).close)
    ensures var tag := IssnTag(eissn);
            MatchAt(pre + tag.open + c + tag.close + post, |pre|, IssnPattern)
              == Some(Match("", c, |pre| + |tag.open| + |c| + |tag.close|))
  {
    AltElementAfter(pre, IssnElement, EissnElement, IssnTag(eissn), c, post, 1);
  }

  /** The journal scan so far: `issns` holds the values of the first `k` journal blocks, and the scan from `pos` yields the rest. */
  ghost predicate JournalLoop(memberXml: string, pos: nat, k: nat, issns: seq<string>) {
    var js := Journals(memberXml);
    pos <= |memberXml| && k <= |js|
    && Contents(ScanFrom(memberXml, JournalPattern, pos)) == js[k..]
    && issns == IssnsOfJournals(js[..k])
  }

  lemma JournalLoopStep(memberXml: string, pos: nat, k: nat, issns: seq<string>)
    requires JournalLoop(memberXml, pos, k, issns)
    requires Leftmost(memberXml, JournalPattern, pos).Some?
    ensures var m := Leftmost(memberXml, JournalPattern, pos).value.1;
            JournalLoop(memberXml, m.end, k + 1, issns + OptionSeq(FirstIssn(m.content)))
  {
    var js := Journals(memberXml);
    var m := Leftmost(memberXml, JournalPattern, pos).value.1;
    assert js[k] == m.content && Contents(ScanFrom(memberXml, JournalPattern, m.end)) == js[k + 1..] by {
      ScanStep(memberXml, JournalPattern, pos);
      assert js[k..][1..] == js[k + 1..];
    }
    IssnsOfJournalsSnoc(js, k);
  }

  lemma IssnsOfJournalsSnoc(js: seq<string>, k: nat)
    requires k < |js|
    ensures IssnsOfJournals(js[..k + 1]) == IssnsOfJournals(js[..k]) + OptionSeq(FirstIssn(js[k]))
  {
    assert js[..k + 1] == js[..k] + [js[k]];
    IssnsOfJournalsAppend(js[..k], [js[k]]);
  }

  lemma JournalLoopEnd(memberXml: string, pos: nat, k: nat, issns: seq<string>)
    requires JournalLoop(memberXml, pos, k, issns)
    requires Leftmost(memberXml, JournalPattern, pos).None?
    ensures issns == IssnsOfJournals(Journals(memberXml))
  {
    var js := Journals(memberXml);
    assert js[..k] == js;
  }

  /** `extract_issns`: scan the journal blocks in order; in each, keep the first ISSN-like value and stop. */
  method ExtractIssnsOf(memberXml: string) returns (issns: seq<string>)
    ensures issns == IssnsOfJournals(Journals(memberXml))
  {
    ghost var k := 0;
    issns := [];
    var pos := 0;
    while true
      invariant JournalLoop(memberXml, pos, k, issns)
      decreases |memberXml| - pos
    {
      match Leftmost(memberXml, JournalPattern, pos)
      case None =>
        JournalLoopEnd(memberXml, pos, k, issns);
        break;
      case Some((_, journal)) =>
        JournalLoopStep(memberXml, pos, k, issns);
        var first := FirstIssn(journal.content);
        if first.Some? {
          issns := issns + [first.value];
        }
        k := k + 1;
        pos := journal.end;
    }
  }

  // ---------------------------------------------------------------------
  // find_issns: grouping the members of a cluster and choosing one

  /** A `<inf:member>` block: the value of its `type` attribute (absent when it has none) and its content. */
  datatype Member = Member(kind: Option<string>, xml: string)

  /** The value of the first `type="..."` in a member's attribute text; without one the member's type is nil. */
  function MemberType(attributes: string): (r: Option<string>)
    ensures r.Some? ==> '"' !in r.value && '\n' !in r.value
  {
    match Leftmost(attributes, TypePattern, 0)
    case None => None
    case Some((p, m)) =>
      TypeValueIsQuoteFree(attributes, p);
      Some(m.content)
  }

  lemma TypeValueIsQuoteFree(attributes: string, p: nat)
    requires MatchAt(attributes, p, TypePattern).Some?
    ensures var c := MatchAt(attributes, p, TypePattern).value.content;
            '"' !in c && '\n' !in c
  {
    var c := MatchAt(attributes, p, TypePattern).value.content;
    SingleLineContent(attributes, p, TypePattern);
    ElementContentAvoidsClose(attributes, p, "type=\"", "\"", false);
    forall j | 0 <= j < |c| ensures c[j] != '"' {
      var t := c + "\"";
      assert !StartsAt(t, j, "\"");
      assert t[j..j + 1] == [c[j]];
    }
  }

  function MemberOf(m: Match): Member {
    Member(MemberType(m.attributes), m.content)
  }

  function MembersOf(ms: seq<Match>): (r: seq<Member>)
    ensures |r| == |ms| && forall i :: 0 <= i < |ms| ==> r[i] == MemberOf(ms[i])
  {
    seq(|ms|, i requires 0 <= i < |ms| => MemberOf(ms[i]))
  }

  /** The members of a cluster, in document order. */
  function Members(clusterXml: string): seq<Member> {
    MembersOf(ScanFrom(clusterXml, MemberPattern, 0))
  }

  function Kinds(ms: seq<Member>): (ks: seq<Option<string>>)
    ensures |ks| == |ms| && forall i :: 0 <= i < |ms| ==> ks[i] == ms[i].kind
  {
    seq(|ms|, i requires 0 <= i < |ms| => ms[i].kind)
  }

  /** The `members` hash after the members `ms`: the contents of each type's members, in document order. */
  function Groups(ms: seq<Member>): map<Option<string>, seq<string>> {
    if ms == [] then map[]
    else
      var g := Groups(ms[..|ms| - 1]);
      var m := ms[|ms| - 1];
      g[m.kind := (if m.kind in g then g[m.kind] else []) + [m.xml]]
  }

  /** The contents of the members of type `k`, in document order. */
  function OfKind(ms: seq<Member>, k: Option<string>): (r: seq<string>)
    ensures |r| <= |ms|
    ensures r == [] <==> forall i :: 0 <= i < |ms| ==> ms[i].kind != k
  {
    if ms == [] then []
    else
      var p := ms[..|ms| - 1];
      assert forall i :: 0 <= i < |p| ==> p[i] == ms[i];
      OfKind(p, k) + (if ms[|ms| - 1].kind == k then [ms[|ms| - 1].xml] else [])
  }

  /** Members are grouped by type: the hash has a key for each type present, holding that type's members in document order. */
  lemma {:induction false} GroupsByKind(ms: seq<Member>)
    ensures forall k :: k in Groups(ms) <==> k in Kinds(ms)
    ensures forall k :: k in Groups(ms) ==> Groups(ms)[k] == OfKind(ms, k) && Groups(ms)[k] != []
  {
    if ms != [] {
      var p := ms[..|ms| - 1];
      GroupsByKind(p);
      assert Kinds(ms) == Kinds(p) + [ms[|ms| - 1].kind];
    }
  }

  /** The first member of type `k`'s content heads the contents of that type. */
  lemma {:induction false} OfKindHead(ms: seq<Member>, i: nat)
    requires i < |ms| && forall j :: 0 <= j < i ==> ms[j].kind != ms[i].kind
    ensures OfKind(ms, ms[i].kind) != [] && OfKind(ms, ms[i].kind)[0] == ms[i].xml
  {
    var k := ms[i].kind;
    if i < |ms| - 1 {
      var p := ms[..|ms| - 1];
      OfKindHead(p, i);
    } else {
      assert OfKind(ms[..|ms| - 1], k) == [];
    }
  }

  /** The member selection of lines 62-68, on the hash (`members`) and its key order (`order`). */
  function SelectMember(members: map<Option<string>, seq<string>>, order: seq<Option<string>>): (r: Option<string>)
    requires forall k :: k in members ==> members[k] != []
    requires forall k :: k in members <==> k in order
    ensures r.None? <==> members == map[]
  {
    if Some(Publisher) in members then Some(members[Some(Publisher)][0])
    else if Some(Database) in members then Some(members[Some(Database)][0])
    else if order != [] then Some(members[order[0]][0])
    else None
  }

  /** The member the selection rule promises, in document terms. */
  function SelectSpec(ms: seq<Member>): Option<string> {
    var publishers := OfKind(ms, Some(Publisher));
    var databases := OfKind(ms, Some(Database));
    if publishers != [] then Some(publishers[0])
    else if databases != [] then Some(databases[0])
    else if ms != [] then Some(ms[0].xml)
    else None
  }

  /** The hash the members build and its key order meet what the selection expects of them. */
  lemma GroupsWellKeyed(ms: seq<Member>)
    ensures forall k :: k in Groups(ms) ==> Groups(ms)[k] != []
    ensures forall k :: k in Groups(ms) <==> k in Distinct(Kinds(ms))
  {
    GroupsByKind(ms);
    forall k ensures k in Groups(ms) <==> k in Distinct(Kinds(ms)) {
      GroupKey(ms, k);
    }
  }

  /** A type is a key of the hash exactly when some member has it, and then the key holds that type's members. */
  lemma GroupKey(ms: seq<Member>, k: Option<string>)
    ensures k in Groups(ms) <==> k in Distinct(Kinds(ms))
    ensures k in Groups(ms) ==> Groups(ms)[k] == OfKind(ms, k)
  {
    GroupsByKind(ms);
    DistinctFirstOccurrences(Kinds(ms));
  }

  /**
   * On the hash the members build, lines 62-68 choose the first `publisher`
   * member, else the first `database` member, else the first member of the
   * cluster, and nothing when the cluster has no members.
   */
  lemma SelectionRule(ms: seq<Member>)
    ensures (GroupsWellKeyed(ms); SelectMember(Groups(ms), Distinct(Kinds(ms))) == SelectSpec(ms))
  {
    GroupsWellKeyed(ms);
    var g, d := Groups(ms), Distinct(Kinds(ms));
    GroupsByKind(ms);
    if Some(Publisher) in g {
    } else if Some(Database) in g {
    } else if ms != [] {
      DistinctHead(Kinds(ms));
      OfKindHead(ms, 0);
    }
  }

  /** The ISSNs a cluster contributes: those of its chosen member. */
  function ClusterIssns(clusterXml: string): seq<string> {
    match SelectSpec(Members(clusterXml))
    case None => []
    case Some(memberXml) => IssnsOfJournals(Journals(memberXml))
  }

  /** The ISSNs of the given clusters, in cluster order. */
  function IssnsOfClusters(clusters: seq<string>): seq<string> {
    ConcatMap(ClusterIssns, clusters)
  }

  /** The contents of the `<inf:cluster>` blocks of a result page, in document order. */
  function Clusters(xml: string): seq<string> {
    Contents(ScanFrom(xml, ClusterPattern, 0))
  }

  /** The ISSNs `find_issns` returns for a result page. */
  function PageIssns(xml: string): seq<string> {
    IssnsOfClusters(Clusters(xml))
  }

  /** Clusters contribute in cluster order: the ISSNs for `a + b` are those for `a`, then those for `b`. */
  lemma IssnsOfClustersAppend(a: seq<string>, b: seq<string>)
    ensures IssnsOfClusters(a + b) == IssnsOfClusters(a) + IssnsOfClusters(b)
  {
    ConcatMapAppend(ClusterIssns, a, b);
  }

  /** The member scan so far: the hash and its key order hold the first `k` members, and the scan from `pos` yields the rest. */
  ghost predicate MemberLoop(clusterXml: string, pos: nat, k: nat,
                             members: map<Option<string>, seq<string>>, order: seq<Option<string>>) {
    var ms := Members(clusterXml);
    pos <= |clusterXml| && k <= |ms|
    && MembersOf(ScanFrom(clusterXml, MemberPattern, pos)) == ms[k..]
    && members == Groups(ms[..k]) && order == Distinct(Kinds(ms[..k]))
  }

  lemma MemberLoopStep(clusterXml: string, pos: nat, k: nat,
                       members: map<Option<string>, seq<string>>, order: seq<Option<string>>)
    requires MemberLoop(clusterXml, pos, k, members, order)
    requires Leftmost(clusterXml, MemberPattern, pos).Some?
    ensures var m := Leftmost(clusterXml, MemberPattern, pos).value.1;
            var kind := MemberType(m.attributes);
            (kind in members <==> kind in order)
            && MemberLoop(clusterXml, m.end, k + 1,
                          members[kind := (if kind in members then members[kind] else []) + [m.content]],
                          AppendNew(order, kind))
  {
    var ms := Members(clusterXml);
    var m := Leftmost(clusterXml, MemberPattern, pos).value.1;
    var kind := MemberType(m.attributes);
    ScanStep(clusterXml, MemberPattern, pos);
    MembersOfStep(ms, k, m, ScanFrom(clusterXml, MemberPattern, m.end));
    MembersSnoc(ms, k);
  }

  lemma MembersOfStep(ms: seq<Member>, k: nat, m: Match, rest: seq<Match>)
    requires k <= |ms| && MembersOf([m] + rest) == ms[k..]
    ensures k < |ms| && ms[k] == MemberOf(m) && MembersOf(rest) == ms[k + 1..]
  {
    assert ([m] + rest)[0] == m;
    assert ms[k..][0] == ms[k];
    assert forall i :: 0 <= i < |rest| ==> ([m] + rest)[i + 1] == rest[i];
    assert ms[k..][1..] == ms[k + 1..];
  }

  /** Adding one member to the hash: its content is appended under its type, and a new type is appended to the key order. */
  lemma MembersSnoc(ms: seq<Member>, k: nat)
    requires k < |ms|
    ensures var kind, g, d := ms[k].kind, Groups(ms[..k]), Distinct(Kinds(ms[..k]));
            (kind in g <==> kind in d)
            && Groups(ms[..k + 1]) == g[kind := (if kind in g then g[kind] else []) + [ms[k].xml]]
            && Distinct(Kinds(ms[..k + 1])) == AppendNew(d, kind)
  {
    var before, after := ms[..k], ms[..k + 1];
    assert after[..k] == before;
    GroupKey(before, ms[k].kind);
    assert Kinds(after) == Kinds(before) + [ms[k].kind];
  }

  lemma MemberLoopEnd(clusterXml: string, pos: nat, k: nat,
                      members: map<Option<string>, seq<string>>, order: seq<Option<string>>)
    requires MemberLoop(clusterXml, pos, k, members, order)
    requires Leftmost(clusterXml, MemberPattern, pos).None?
    ensures members == Groups(Members(clusterXml)) && order == Distinct(Kinds(Members(clusterXml)))
  {
    var ms := Members(clusterXml);
    assert ms[..k] == ms;
  }

  /** Lines 54-59: fill the `members` hash, keyed by type, in document order. */
  method GroupMembers(clusterXml: string) returns (members: map<Option<string>, seq<string>>, order: seq<Option<string>>)
    ensures members == Groups(Members(clusterXml))
    ensures order == Distinct(Kinds(Members(clusterXml)))
  {
    members, order := map[], [];
    var pos := 0;
    ghost var k := 0;
    while true
      invariant MemberLoop(clusterXml, pos, k, members, order)
      decreases |clusterXml| - pos
    {
      match Leftmost(clusterXml, MemberPattern, pos)
      case None =>
        MemberLoopEnd(clusterXml, pos, k, members, order);
        break;
      case Some((_, m)) =>
        MemberLoopStep(clusterXml, pos, k, members, order);
        var kind := MemberType(m.attributes);
        if kind !in members {
          Overwrite(members, kind, [], [m.content]);
          members := members[kind := []];
          order := order + [kind];
        }
        members := members[kind := members[kind] + [m.content]];
        k := k + 1;
        pos := m.end;
    }
  }

  /** The cluster scan so far: `issns` holds the ISSNs of the first `k` clusters, and the scan from `pos` yields the rest. */
  ghost predicate ClusterLoop(xml: string, pos: nat, k: nat, issns: seq<string>) {
    var cs := Clusters(xml);
    pos <= |xml| && k <= |cs|
    && Contents(ScanFrom(xml, ClusterPattern, pos)) == cs[k..]
    && issns == IssnsOfClusters(cs[..k])
  }

  lemma ClusterLoopStep(xml: string, pos: nat, k: nat, issns: seq<string>)
    requires ClusterLoop(xml, pos, k, issns)
    requires Leftmost(xml, ClusterPattern, pos).Some?
    ensures var m := Leftmost(xml, ClusterPattern, pos).value.1;
            ClusterLoop(xml, m.end, k + 1, issns + ClusterIssns(m.content))
  {
    var cs := Clusters(xml);
    var m := Leftmost(xml, ClusterPattern, pos).value.1;
    assert cs[k] == m.content && Contents(ScanFrom(xml, ClusterPattern, m.end)) == cs[k + 1..] by {
      ScanStep(xml, ClusterPattern, pos);
      assert cs[k..][1..] == cs[k + 1..];
    }
    IssnsOfClustersSnoc(cs, k);
  }

  lemma IssnsOfClustersSnoc(cs: seq<string>, k: nat)
    requires k < |cs|
    ensures IssnsOfClusters(cs[..k + 1]) == IssnsOfClusters(cs[..k]) + ClusterIssns(cs[k])
  {
    ConcatMapSnoc(ClusterIssns, cs, k);
  }

  lemma ClusterLoopEnd(xml: string, pos: nat, k: nat, issns: seq<string>)
    requires ClusterLoop(xml, pos, k, issns)
    requires Leftmost(xml, ClusterPattern, pos).None?
    ensures issns == PageIssns(xml)
  {
    var cs := Clusters(xml);
    assert cs[..k] == cs;
  }

  /** `find_issns` on a fetched result page: per cluster, group the members, choose one, extract its ISSNs. */
  method FindIssns(xml: string) returns (issns: seq<string>)
    ensures issns == PageIssns(xml)
  {
    issns := [];
    var pos := 0;
    ghost var k := 0;
    while true
      invariant ClusterLoop(xml, pos, k, issns)
      decreases |xml| - pos
    {
      match Leftmost(xml, ClusterPattern, pos)
      case None =>
        ClusterLoopEnd(xml, pos, k, issns);
        break;
      case Some((_, cluster)) =>
        ClusterLoopStep(xml, pos, k, issns);
        var members, order := GroupMembers(cluster.content);
        GroupsWellKeyed(Members(cluster.content));
        SelectionRule(Members(cluster.content));
        var chosen := SelectMember(members, order);
        if chosen.Some? {
          var found := ExtractIssnsOf(chosen.value);
          issns := issns + found;
        }
        k := k + 1;
        pos := cluster.end;
    }
  }

  // ---------------------------------------------------------------------
  // The query log on standard input

  /** A query of the log: the header's time stamp, offset and page size as written, and the query text. */
  datatype Query = Query(timestamp: string, start: string, rows: string, text: string)

  /** `\d{4}-\d{2}-\d{2} \d{2}:\d{2}:\d{2}`: a `0` stands for any digit. */
  const DateTimeShape: string := "0000-00-00 00:00:00"

  predicate IsDateTime(t: string) {
    |t| == |DateTimeShape|
    && forall i :: 0 <= i < |t| ==> if DateTimeShape[i] == '0' then IsDigit(t[i]) else t[i] == DateTimeShape[i]
  }

  predicate AllDigits(t: string) {
    |t| > 0 && forall i :: 0 <= i < |t| ==> IsDigit(t[i])
  }

  /** The time stamp line 75 captures: a date and time, then at least one more non-space character. */
  predicate IsTimestamp(t: string) {
    |t| > |DateTimeShape| && IsDateTime(t[..|DateTimeShape|])
    && forall j :: |DateTimeShape| <= j < |t| ==> !IsSpace(t[j])
  }

  lemma TimestampAt(b: string, i: nat, e: nat)
    requires i + |DateTimeShape| < e <= |b|
    requires IsDateTime(b[i..i + |DateTimeShape|])
    requires forall j :: i + |DateTimeShape| <= j < e ==> InClass(b[j], NonSpace)
    ensures IsTimestamp(b[i..e])
  {
    assert b[i..e][..|DateTimeShape|] == b[i..i + |DateTimeShape|];
    forall j | |DateTimeShape| <= j < e - i
      ensures !IsSpace(b[i..e][j])
    {
      assert b[i..e][j] == b[i + j];
      assert InClass(b[i + j], NonSpace);
    }
  }

  /** `\s*(\d+) \| ` at `i`: the digits, and where the text after the separator starts. */
  function NumberField(b: string, i: nat): (r: Option<(string, nat)>)
    requires i <= |b|
    ensures r.Some? ==> AllDigits(r.value.0) && i < r.value.1 <= |b|
  {
    var a := SpanEnd(b, i, Space);
    var d := SpanEnd(b, a, Digit);
    if d == a || !StartsAt(b, d, " | ") then None else Some((b[a..d], d + 3))
  }

  /**
   * The header pattern of the extraction script,
   * `^\s*(<date> <time>\S+) \| \s*(\d+) \| \s*(\d+) \| (.*)`, on the text
   * of a line without its newline. Each repetition is followed by
   * something it cannot match, so the greedy runs are the only way to match.
   */
  function ParseHeader(b: string): (r: Option<Query>)
    ensures r.Some? ==> IsTimestamp(r.value.timestamp) && AllDigits(r.value.start) && AllDigits(r.value.rows)
    ensures r.Some? ==> SpanEnd(b, 0, Space) < |b| && IsDigit(b[SpanEnd(b, 0, Space)])
  {
    var i := SpanEnd(b, 0, Space);
    if i + |DateTimeShape| > |b| || !IsDateTime(b[i..i + |DateTimeShape|]) then None
    else
      var e := SpanEnd(b, i + |DateTimeShape|, NonSpace);
      if e == i + |DateTimeShape| || !StartsAt(b, e, " | ") then None
      else
        match NumberField(b, e + 3)
        case None => None
        case Some((start, j)) =>
          match NumberField(b, j)
          case None => None
          case Some((rows, k)) =>
            TimestampAt(b, i, e);
            assert IsDigit(b[i..i + |DateTimeShape|][0]);
            Some(Query(b[i..e], start, rows, b[k..]))
  }

  /**
   * `^\s+: (.*)`, the continuation pattern of the extraction script, on the
   * text of a line without its newline: the line is a non-empty run of white
   * space, `": "` and the text the line adds to the current query.
   */
  function ParseContinuation(b: string): (r: Option<string>)
    ensures r.Some? ==> |r.value| + 3 <= |b| && b[|b| - |r.value|..] == r.value
    ensures r.Some? ==> StartsAt(b, |b| - |r.value| - 2, ": ")
    ensures r.Some? ==> forall j :: 0 <= j < |b| - |r.value| - 2 ==> IsSpace(b[j])
  {
    var i := SpanEnd(b, 0, Space);
    if i > 0 && StartsAt(b, i, ": ") then Some(b[i + 2..]) else None
  }

  /** Every line of that shape is a continuation adding exactly its text after `": "`. */
  lemma ContinuationOf(ws: string, v: string)
    requires |ws| > 0 && forall j :: 0 <= j < |ws| ==> IsSpace(ws[j])
    ensures ParseContinuation(ws + ": " + v) == Some(v)
  {
    var b := ws + ": " + v;
    var i := SpanEnd(b, 0, Space);
    assert b[|ws|] == ':';
    assert b[|ws|..|ws| + 2] == ": " && b[|ws| + 2..] == v;
  }

  /** No line is both a header and a continuation, so the order of the two cases does not matter. */
  lemma HeaderNotContinuation(b: string)
    ensures ParseHeader(b).Some? ==> ParseContinuation(b).None?
  {
    var i := SpanEnd(b, 0, Space);
    if ParseHeader(b).Some? && i + 2 <= |b| {
      assert b[i..i + 2][0] == b[i];
    }
  }

  /** What a line of the log is to the loop of lines 73-88: the header case is tried first. */
  datatype LineKind = Header(query: Query) | Continuation(text: string) | Other

  function Classify(line: Line): LineKind {
    match ParseHeader(Body(line))
    case Some(q) => Header(q)
    case None =>
      match ParseContinuation(Body(line))
      case Some(x) => Continuation(x)
      case None => Other
  }

  function ClassifyAll(lines: seq<Line>): (ks: seq<LineKind>)
    ensures |ks| == |lines| && forall i :: 0 <= i < |lines| ==> ks[i] == Classify(lines[i])
  {
    seq(|lines|, i requires 0 <= i < |lines| => Classify(lines[i]))
  }

  /** The variables of the loop of lines 73-88: the queries completed so far, the query being read, and whether `nil += ...` has raised. */
  datatype Reader = Reader(done: seq<Query>, current: Option<Query>, crashed: bool)

  /** One line of the loop of lines 73-88. */
  function ReadLine(r: Reader, k: LineKind): Reader {
    if r.crashed then r
    else
      match k
      case Header(q) => Reader(r.done + OptionSeq(r.current), Some(q), false)
      case Continuation(x) =>
        if r.current.None? then Reader(r.done, None, true)
        else Reader(r.done, Some(r.current.value.(text := r.current.value.text + x)), false)
      case Other => r
  }

  /** The loop's variables after the lines of kinds `ks`. */
  function ReadAll(ks: seq<LineKind>): Reader {
    if ks == [] then Reader([], None, false)
    else ReadLine(ReadAll(ks[..|ks| - 1]), ks[|ks| - 1])
  }

  /** The number of header lines among `ks`. */
  function Headers(ks: seq<LineKind>): (n: nat)
    ensures n <= |ks|
  {
    if ks == [] then 0
    else Headers(ks[..|ks| - 1]) + (if ks[|ks| - 1].Header? then 1 else 0)
  }

  /** Reading one more line is one more step of the loop. */
  lemma ReadAllNext(ks: seq<LineKind>, i: nat)
    requires i < |ks|
    ensures ReadAll(ks[..i + 1]) == ReadLine(ReadAll(ks[..i]), ks[i])
  {
    assert ks[..i + 1][..i] == ks[..i];
  }

  /** Once `nil += ...` has raised, no later line changes anything. */
  lemma {:induction false} CrashIsFinal(ks: seq<LineKind>, n: nat)
    requires n <= |ks| && ReadAll(ks[..n]).crashed
    ensures ReadAll(ks) == ReadAll(ks[..n])
    decreases |ks| - n
  {
    if n < |ks| {
      ReadAllNext(ks, n);
      CrashIsFinal(ks, n + 1);
    } else {
      assert ks[..n] == ks;
    }
  }

  /** A line that is neither a header nor a continuation is ignored. */
  lemma OtherLinesIgnored(ks: seq<LineKind>)
    ensures ReadAll(ks + [Other]) == ReadAll(ks)
  {
    assert (ks + [Other])[..|ks|] == ks;
  }

  /** A continuation line read while a query is open adds its text to that query and to nothing else. */
  lemma ContinuationAppends(ks: seq<LineKind>, x: string)
    requires !ReadAll(ks).crashed && ReadAll(ks).current.Some?
    ensures var q := ReadAll(ks).current.value;
            ReadAll(ks + [Continuation(x)]) == ReadAll(ks).(current := Some(q.(text := q.text + x)))
  {
    assert (ks + [Continuation(x)])[..|ks|] == ks;
  }

  /** The queries the header lines start, in order, as their headers wrote them. */
  function HeaderQueries(ks: seq<LineKind>): (qs: seq<Query>)
    ensures |qs| == Headers(ks)
  {
    if ks == [] then []
    else HeaderQueries(ks[..|ks| - 1]) + (if ks[|ks| - 1].Header? then [ks[|ks| - 1].query] else [])
  }

  /** `q` is the query `h` started, with continuation text added to it. */
  predicate Continues(q: Query, h: Query) {
    q.timestamp == h.timestamp && q.start == h.start && q.rows == h.rows && h.text <= q.text
  }

  /**
   * Until a continuation line arrives before any header, every header
   * starts a query, each query is completed by the next header, and the
   * last one is still being read when the input ends: it is never looked up.
   */
  lemma {:induction false} QueriesFromHeaders(ks: seq<LineKind>)
    requires !ReadAll(ks).crashed
    ensures var r := ReadAll(ks);
            |r.done| + |OptionSeq(r.current)| == Headers(ks)
            && (r.current.Some? <==> Headers(ks) > 0)
            && (forall i :: 0 <= i < |r.done| ==> Continues(r.done[i], HeaderQueries(ks)[i]))
            && (r.current.Some? ==> Continues(r.current.value, HeaderQueries(ks)[Headers(ks) - 1]))
  {
    if ks != [] {
      var p := ks[..|ks| - 1];
      assert !ReadAll(p).crashed;
      QueriesFromHeaders(p);
    }
  }

  /** The loop raises exactly when a continuation line comes before the first header. */
  lemma {:induction false} CrashWhen(ks: seq<LineKind>)
    ensures ReadAll(ks).crashed <==>
              exists i :: 0 <= i < |ks| && ks[i].Continuation? && Headers(ks[..i]) == 0
  {
    if ks != [] {
      var n := |ks| - 1;
      var p := ks[..n];
      CrashWhen(p);
      if ReadAll(p).crashed {
        var i :| 0 <= i < |p| && p[i].Continuation? && Headers(p[..i]) == 0;
        assert ks[..i] == p[..i];
      } else if ReadAll(ks).crashed {
        QueriesFromHeaders(p);
        assert ks[..n] == p;
      } else {
        QueriesFromHeaders(p);
        forall i | 0 <= i < |ks| && ks[i].Continuation? ensures Headers(ks[..i]) != 0 {
          if i < n {
            assert ks[..i] == p[..i];
          } else {
            assert ks[..i] == p;
          }
        }
      }
    }
  }

  // ---------------------------------------------------------------------
  // Looking up the completed queries

  datatype Output = Stdout(text: string) | Stderr(text: string)

  /** The result page request of line 52, `URI.encode` being given. */
  function SearchUrl(backendUrl: string, encode: string -> string, q: Query): string {
    backendUrl + "/article/?q=" + encode(q.text) + "&start=" + q.start + "&limit=" + q.rows + "&media=xml"
  }

  /** Lines 80-81: a query with ISSNs prints them on standard output; one without is reported on standard error. */
  function Report(q: Query, issns: seq<string>): (r: Output)
    ensures r.Stdout? <==> issns != []
  {
    if issns != [] then Stdout(Puts(q.timestamp + ": " + Join(issns, ',')))
    else Stderr(Puts("Empty query: offset=" + q.start + ", limit=" + q.rows + ", query=" + q.text))
  }

  /** The ISSNs `find_issns` finds for a query, the backend answering each request with `fetch`. */
  function Lookup(backendUrl: string, encode: string -> string, fetch: string -> string): Query -> seq<string> {
    q => PageIssns(fetch(SearchUrl(backendUrl, encode, q)))
  }

  /** What the loop writes for the completed queries `qs`, `found` giving each query's ISSNs. */
  function Reports(qs: seq<Query>, found: Query -> seq<string>): (out: seq<Output>)
    ensures |out| == |qs|
  {
    if qs == [] then []
    else
      var q := qs[|qs| - 1];
      Reports(qs[..|qs| - 1], found) + [Report(q, found(q))]
  }

  /** The `i`-th output reports the `i`-th completed query: its ISSNs on standard output, or the empty-query notice on standard error. */
  lemma {:induction false} ReportAt(qs: seq<Query>, found: Query -> seq<string>, i: nat)
    requires i < |qs|
    ensures Reports(qs, found)[i] == Report(qs[i], found(qs[i]))
    ensures Reports(qs, found)[i].Stdout? <==> found(qs[i]) != []
  {
    var p := qs[..|qs| - 1];
    if i < |p| {
      ReportAt(p, found, i);
    }
  }

  lemma ReportsSnoc(qs: seq<Query>, found: Query -> seq<string>, q: Query)
    ensures Reports(qs + [q], found) == Reports(qs, found) + [Report(q, found(q))]
  {
    assert (qs + [q])[..|qs|] == qs;
  }

  /** The loop after `i` lines, before any raise: `query` is the query being read and `out` what has been written. */
  ghost predicate StdinLoop(found: Query -> seq<string>, ks: seq<LineKind>, i: nat, query: Option<Query>, out: seq<Output>) {
    i <= |ks|
    && var r := ReadAll(ks[..i]);
       !r.crashed && r.current == query && out == Reports(r.done, found)
  }

  lemma HeaderStep(found: Query -> seq<string>, ks: seq<LineKind>, i: nat, query: Option<Query>, out: seq<Output>,
                    q: Query, issns: seq<string>)
    requires StdinLoop(found, ks, i, query, out) && i < |ks| && ks[i] == Header(q)
    requires query.Some? ==> issns == found(query.value)
    ensures StdinLoop(found, ks, i + 1, Some(q), if query.Some? then out + [Report(query.value, issns)] else out)
  {
    ReadAllNext(ks, i);
    var r := ReadAll(ks[..i]);
    assert ReadAll(ks[..i + 1]) == Reader(r.done + OptionSeq(query), Some(q), false);
    if query.Some? {
      ReportsSnoc(r.done, found, query.value);
    } else {
      assert r.done + OptionSeq(query) == r.done;
    }
  }

  lemma ContinuationStep(found: Query -> seq<string>, ks: seq<LineKind>, i: nat, query: Option<Query>, out: seq<Output>, x: string)
    requires StdinLoop(found, ks, i, query, out) && i < |ks| && ks[i] == Continuation(x)
    ensures query.Some? ==> StdinLoop(found, ks, i + 1, Some(query.value.(text := query.value.text + x)), out)
    ensures query.None? ==> ReadAll(ks).crashed && out == Reports(ReadAll(ks).done, found)
  {
    ReadAllNext(ks, i);
    if query.None? {
      CrashIsFinal(ks, i + 1);
    }
  }

  lemma OtherStep(found: Query -> seq<string>, ks: seq<LineKind>, i: nat, query: Option<Query>, out: seq<Output>)
    requires StdinLoop(found, ks, i, query, out) && i < |ks| && ks[i] == Other
    ensures StdinLoop(found, ks, i + 1, query, out)
  {
    ReadAllNext(ks, i);
  }

  lemma StdinEnd(found: Query -> seq<string>, ks: seq<LineKind>, i: nat, query: Option<Query>, out: seq<Output>)
    requires StdinLoop(found, ks, i, query, out) && i == |ks|
    ensures !ReadAll(ks).crashed && out == Reports(ReadAll(ks).done, found)
  {
    assert ks[..i] == ks;
  }

  /**
   * One pass of the loop of lines 73-88 over a line of kind `kind`: a header
   * completes the query being read, which is looked up and reported, and
   * starts a new one; a continuation extends the query being read, or
   * raises (`stop`) when there is none; any other line is skipped.
   */
  method ReadStep(url: string, encode: string -> string, fetch: string -> string, kind: LineKind,
                  query: Option<Query>, out: seq<Output>,
                  ghost found: Query -> seq<string>, ghost ks: seq<LineKind>, ghost i: nat)
    returns (query': Option<Query>, out': seq<Output>, stop: bool)
    requires found == Lookup(url, encode, fetch)
    requires StdinLoop(found, ks, i, query, out) && i < |ks| && ks[i] == kind
    ensures !stop ==> StdinLoop(found, ks, i + 1, query', out')
    ensures stop ==> ReadAll(ks).crashed && out' == Reports(ReadAll(ks).done, found)
  {
    query', out', stop := query, out, false;
    match kind {
      case Header(q) =>
        var issns := [];
        if query.Some? {
          issns := FindIssns(fetch(SearchUrl(url, encode, query.value)));
          out' := out + [Report(query.value, issns)];
        }
        HeaderStep(found, ks, i, query, out, q, issns);
        query' := Some(q);
      case Continuation(x) =>
        ContinuationStep(found, ks, i, query, out, x);
        if query.None? {
          stop := true;
        } else {
          query' := Some(query.value.(text := query.value.text + x));
        }
      case Other =>
        OtherStep(found, ks, i, query, out);
    }
  }

  /** Lines 73-88: the log read line by line, each query looked up once the next header completes it; `crashed` when `query += $1` raised. */
  method ReadLog(url: string, encode: string -> string, fetch: string -> string, lines: seq<Line>)
    returns (out: seq<Output>, crashed: bool)
    ensures out == Reports(ReadAll(ClassifyAll(lines)).done, Lookup(url, encode, fetch))
    ensures crashed == ReadAll(ClassifyAll(lines)).crashed
  {
    ghost var ks := ClassifyAll(lines);
    ghost var found := Lookup(url, encode, fetch);
    out, crashed := [], false;
    var query: Option<Query> := None;
    var i := 0;
    while i < |lines|
      invariant i <= |lines|
      invariant StdinLoop(found, ks, i, query, out)
    {
      var stop;
      query, out, stop := ReadStep(url, encode, fetch, Classify(lines[i]), query, out, found, ks, i);
      if stop {
        return out, true;
      }
      i := i + 1;
    }
    StdinEnd(found, ks, i, query, out);
  }

  /** Lines 30-35 and 73-88: without `-u` the script prints its usage and stops; otherwise it reads the log. */
  method Extract(backendUrl: Option<string>, script: string, lines: seq<Line>,
                 encode: string -> string, fetch: string -> string)
    returns (out: seq<Output>, crashed: bool)
    ensures backendUrl.None? ==> out == [Stdout(Puts("Usage: " + script + " -u <infonet-backend-url>"))] && !crashed
    ensures backendUrl.Some? ==>
              out == Reports(ReadAll(ClassifyAll(lines)).done, Lookup(backendUrl.value, encode, fetch))
              && crashed == ReadAll(ClassifyAll(lines)).crashed
  {
    if backendUrl.None? {
      return [Stdout(Puts("Usage: " + script + " -u <infonet-backend-url>"))], false;
    }
    out, crashed := ReadLog(backendUrl.value, encode, fetch, lines);
  }
}
