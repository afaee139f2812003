/** `print_synapse_reports.py`: registrant and submission numbers for a list of
    challenges. The platform's answers (`restGET`, `_get_team_set`,
    `evaluation_queue_query`) and `convert_to_epoch` are given as a `Platform` value. */
module SynapseReports {
  import opened Wrappers
  import opened Decimal
  import opened Text

  /** An evaluation queue as `/entity/{id}/evaluation` lists it. */
  datatype Evaluation = Evaluation(id: string, name: string)

  /** The challenge object of `/entity/{id}/challenge`. */
  datatype ChallengeRecord = ChallengeRecord(id: string, participantTeamId: string)

  /** A member record of a participant team. */
  datatype TeamMember = TeamMember(ownerId: string)

  /** A row an evaluation-queue query yields. */
  datatype QueueRow = QueueRow(objectId: string)

  /** What the platform answers, as functions of the request. */
  datatype Platform = Platform(
    entityName: string -> string,              // restGET /entity/{id}, field "name"
    challengeOf: string -> ChallengeRecord,    // restGET /entity/{id}/challenge
    evaluationsOf: string -> seq<Evaluation>,  // restGET /entity/{id}/evaluation, field "results"
    teamSet: string -> seq<TeamMember>,        // teams._get_team_set(syn, team)
    queueQuery: string -> seq<QueueRow>,       // utils.evaluation_queue_query(syn, query)
    toEpoch: string -> int)                    // convert_to_epoch(dt)

  // ---------------------------------------------------------------- evaluation filter

  /** Under `re.IGNORECASE`, text character `c` matches the lower-case pattern character
      `p`: the same character, its ASCII capital, or a character `re` folds onto it
      (U+017F onto `s`; U+0130 and U+0131 onto `i`). */
  predicate FoldsTo(c: char, p: char)
  {
    || c == p
    || ('a' <= p <= 'z' && c as int == p as int - 32)
    || (p == 's' && c == '\U{017F}')
    || (p == 'i' && (c == '\U{0130}' || c == '\U{0131}'))
  }

  predicate WordAt(s: string, w: string, i: nat)
  {
    i + |w| <= |s| && forall k :: 0 <= k < |w| ==> FoldsTo(s[i + k], w[k])
  }

  /** `re.search(w, s, re.I)` finds something. */
  predicate ContainsWord(s: string, w: string)
  {
    exists i :: 0 <= i <= |s| && WordAt(s, w, i)
  }

  /** `re.search(r"test|write-up|uw", name, re.I)` finds something: a test or write-up queue. */
  predicate IsExcluded(name: string)
  {
    ContainsWord(name, "test") || ContainsWord(name, "write-up") || ContainsWord(name, "uw")
  }

  /** The ids of the evaluation queues kept by `get_challenge_info`, in listing order. */
  function EvalIds(evals: seq<Evaluation>): (ids: seq<string>)
    ensures |ids| <= |evals|
  {
    if evals == [] then []
    else
      var rest := EvalIds(evals[1..]);
      if IsExcluded(evals[0].name) then rest else [evals[0].id] + rest
  }

  /** The filter works queue by queue and keeps the listing order: the ids kept from two
      consecutive listings are those kept from the first followed by those from the second. */
  lemma {:induction false} EvalIdsAppend(xs: seq<Evaluation>, ys: seq<Evaluation>)
    ensures EvalIds(xs + ys) == EvalIds(xs) + EvalIds(ys)
  {
    if xs != [] {
      assert (xs + ys)[1..] == xs[1..] + ys;
      EvalIdsAppend(xs[1..], ys);
    } else {
      assert xs + ys == ys;
    }
  }

  /** An id is kept exactly when some queue with that id has a name that mentions none
      of `test`, `write-up`, `uw`, in any case. */
  lemma {:induction false} EvalIdsMembership(evals: seq<Evaluation>, x: string)
    ensures x in EvalIds(evals) <==> exists i :: 0 <= i < |evals| && evals[i].id == x && !IsExcluded(evals[i].name)
  {
    if evals != [] {
      EvalIdsMembership(evals[1..], x);
      assert forall i :: 1 <= i < |evals| ==> evals[i] == evals[1..][i - 1];
      if x in EvalIds(evals[1..]) {
        var i :| 0 <= i < |evals[1..]| && evals[1..][i].id == x && !IsExcluded(evals[1..][i].name);
        assert evals[i + 1] == evals[1..][i];
      }
    }
  }

  /** `get_challenge_info`'s result. */
  datatype ChallengeInfo = ChallengeInfo(cid: string, name: string, team: string, evalIds: seq<string>)

  function GetChallengeInfo(p: Platform, challenge: string): (info: ChallengeInfo)
    ensures info.evalIds == EvalIds(p.evaluationsOf(challenge))
    ensures info.team == p.challengeOf(challenge).participantTeamId
  {
    var record := p.challengeOf(challenge);
    ChallengeInfo(record.id, p.entityName(challenge), record.participantTeamId,
                  EvalIds(p.evaluationsOf(challenge)))
  }

  // ---------------------------------------------------------------- queries

  /** The value `count_submissions` holds for a date bound after `if start: start =
      convert_to_epoch(start)`: no value for a missing or empty bound. */
  function ConvertBound(arg: Option<string>, toEpoch: string -> int): (b: Option<int>)
    ensures b.Some? <==> arg.Some? && arg.value != ""
  {
    if arg.Some? && arg.value != "" then Some(toEpoch(arg.value)) else None
  }

  /** `if start:` on the converted bound: an epoch of 0 counts as no bound. */
  predicate Truthy(bound: Option<int>) { bound.Some? && bound.value != 0 }

  const StartOp: string := ">="
  const EndOp: string := "<="

  /** The condition appended for a bound: ` AND createdOn <op> <epoch>`. */
  function ClauseText(op: string, epoch: int): (c: string)
    requires |op| == 2
    ensures |c| > 18 && c[0] == ' ' && c[15] == op[0] && c[18..] == IntToString(epoch)
  {
    var c := " AND createdOn " + op + " " + IntToString(epoch);
    assert c[18..] == IntToString(epoch);
    c
  }

  function Clause(op: string, bound: Option<int>): string
    requires |op| == 2
  {
    if Truthy(bound) then ClauseText(op, bound.value) else ""
  }

  /** `if bound: query += clause` leaves the query extended by `Clause(op, bound)`. */
  lemma AppendClause(query: string, op: string, bound: Option<int>)
    requires |op| == 2
    ensures (if Truthy(bound) then query + ClauseText(op, bound.value) else query) == query + Clause(op, bound)
  {
    if !Truthy(bound) {
      assert query + [] == query;
    }
  }

  function BaseQuery(evalId: string): string
  {
    "SELECT * FROM evaluation_" + evalId + " WHERE status == 'ACCEPTED'"
  }

  /** The query `count_submissions` sends for one queue. */
  function Query(evalId: string, start: Option<int>, end: Option<int>): string
  {
    BaseQuery(evalId) + Clause(StartOp, start) + Clause(EndOp, end)
  }

  /** Every query is the base query, extended by a clause exactly when a bound is truthy. */
  lemma QueryExtendsBase(evalId: string, start: Option<int>, end: Option<int>)
    ensures StartsWith(Query(evalId, start, end), BaseQuery(evalId))
    ensures Query(evalId, start, end) == BaseQuery(evalId) <==> !Truthy(start) && !Truthy(end)
  {
    var clauses := Clause(StartOp, start) + Clause(EndOp, end);
    QueryIsBaseAndClauses(evalId, start, end);
    ConcatPrefix(BaseQuery(evalId), clauses);
    assert clauses == [] <==> !Truthy(start) && !Truthy(end);
  }

  /** Characters of `str(n)` for an integer. */
  predicate NumberText(s: string) { forall i :: 0 <= i < |s| ==> IsDigit(s[i]) || s[i] == '-' }

  lemma IntToStringIsNumberText(n: int)
    ensures NumberText(IntToString(n))
  {
    var s := IntToString(n);
    if n < 0 {
      forall i | 1 <= i < |s| ensures IsDigit(s[i]) {
        assert s[i] == s[1..][i - 1];
      }
    }
  }

  /** A number followed by nothing or by a clause starting with a space is split unambiguously. */
  lemma NumberThenClause(n1: string, r1: string, n2: string, r2: string)
    requires NumberText(n1) && NumberText(n2)
    requires r1 == [] || r1[0] == ' '
    requires r2 == [] || r2[0] == ' '
    requires n1 + r1 == n2 + r2
    ensures n1 == n2 && r1 == r2
  {
    var line := n1 + r1;
    assert forall i :: 0 <= i < |n1| ==> line[i] == n1[i];
    assert forall i :: 0 <= i < |n2| ==> line[i] == (n2 + r2)[i] == n2[i];
    assert |n1| < |line| ==> line[|n1|] == ' ';
    assert |n2| < |line| ==> line[|n2|] == (n2 + r2)[|n2|] == ' ';
    if |n1| == |n2| {
      assert n1 == (n1 + r1)[..|n1|] == (n2 + r2)[..|n2|] == n2;
      assert r1 == (n1 + r1)[|n1|..] == (n2 + r2)[|n2|..] == r2;
    }
  }

  /** With a truthy start bound the clauses begin with the `>=` clause. */
  lemma ClausesWithStart(c: Option<int>, d: Option<int>, line: string)
    requires line == Clause(StartOp, c) + Clause(EndOp, d)
    requires Truthy(c)
    ensures |line| > 18 && line[15] == '>' && line[18..] == IntToString(c.value) + Clause(EndOp, d)
  {
    var x := ClauseText(StartOp, c.value);
    var y := Clause(EndOp, d);
    assert line == x + y;
    assert line[15] == x[15];
    DropConcat(x, y, 18);
  }

  /** Without one they are the `<=` clause alone, or nothing. */
  lemma ClausesWithoutStart(c: Option<int>, d: Option<int>, line: string)
    requires line == Clause(StartOp, c) + Clause(EndOp, d)
    requires !Truthy(c)
    ensures Truthy(d) ==> |line| > 18 && line[15] == '<' && line[18..] == IntToString(d.value)
    ensures !Truthy(d) ==> line == []
  {
    assert line == Clause(EndOp, d);
  }

  lemma ClausesDetermineBounds(c1: Option<int>, d1: Option<int>, c2: Option<int>, d2: Option<int>)
    requires Clause(StartOp, c1) + Clause(EndOp, d1) == Clause(StartOp, c2) + Clause(EndOp, d2)
    ensures Truthy(c1) == Truthy(c2) && (Truthy(c1) ==> c1.value == c2.value)
    ensures Truthy(d1) == Truthy(d2) && (Truthy(d1) ==> d1.value == d2.value)
  {
    var line := Clause(StartOp, c1) + Clause(EndOp, d1);
    if Truthy(c1) { ClausesWithStart(c1, d1, line); } else { ClausesWithoutStart(c1, d1, line); }
    if Truthy(c2) { ClausesWithStart(c2, d2, line); } else { ClausesWithoutStart(c2, d2, line); }
    var y1, y2 := Clause(EndOp, d1), Clause(EndOp, d2);
    if Truthy(c1) && Truthy(c2) {
      IntToStringIsNumberText(c1.value);
      IntToStringIsNumberText(c2.value);
      NumberThenClause(IntToString(c1.value), y1, IntToString(c2.value), y2);
      IntToStringInjective(c1.value, c2.value);
    }
    assert y1 == y2;
    if Truthy(d1) && Truthy(d2) {
      assert IntToString(d1.value) == y1[18..] == y2[18..] == IntToString(d2.value);
      IntToStringInjective(d1.value, d2.value);
    }
  }

  lemma QueryIsBaseAndClauses(evalId: string, c: Option<int>, d: Option<int>)
    ensures Query(evalId, c, d) == BaseQuery(evalId) + (Clause(StartOp, c) + Clause(EndOp, d))
  {
  }

  /** The query text carries the bounds: two queries for a queue are the same text only when
      they have the same truthy start and end bounds. */
  lemma QueryDeterminesBounds(evalId: string, c1: Option<int>, d1: Option<int>, c2: Option<int>, d2: Option<int>)
    requires Query(evalId, c1, d1) == Query(evalId, c2, d2)
    ensures Truthy(c1) == Truthy(c2) && (Truthy(c1) ==> c1.value == c2.value)
    ensures Truthy(d1) == Truthy(d2) && (Truthy(d1) ==> d1.value == d2.value)
  {
    QueryIsBaseAndClauses(evalId, c1, d1);
    QueryIsBaseAndClauses(evalId, c2, d2);
    ConcatCancel(BaseQuery(evalId), Clause(StartOp, c1) + Clause(EndOp, d1), Clause(StartOp, c2) + Clause(EndOp, d2));
    ClausesDetermineBounds(c1, d1, c2, d2);
  }

  // ---------------------------------------------------------------- counting

  /** Number of rows the query for one queue yields. */
  function QueueCount(p: Platform, evalId: string, start: Option<int>, end: Option<int>): nat
  {
    |p.queueQuery(Query(evalId, start, end))|
  }

  /** Rows yielded over a list of queues, summed from the first to the last. */
  function Tally(p: Platform, evals: seq<string>, start: Option<int>, end: Option<int>): nat
  {
    if evals == [] then 0
    else Tally(p, evals[..|evals| - 1], start, end) + QueueCount(p, evals[|evals| - 1], start, end)
  }

  /** The tally of two consecutive lists of queues is the sum of their tallies. */
  lemma {:induction false} TallyAppend(p: Platform, xs: seq<string>, ys: seq<string>, start: Option<int>, end: Option<int>)
    ensures Tally(p, xs + ys, start, end) == Tally(p, xs, start, end) + Tally(p, ys, start, end)
    decreases |ys|
  {
    if ys == [] {
      assert xs + ys == xs;
    } else {
      var ys' := ys[..|ys| - 1];
      assert (xs + ys)[..|xs + ys| - 1] == xs + ys';
      TallyAppend(p, xs, ys', start, end);
    }
  }

  lemma MultisetRemove(ys: seq<string>, i: nat)
    requires i < |ys|
    ensures multiset(ys[..i] + ys[i + 1..]) == multiset(ys) - multiset{ys[i]}
  {
    assert ys == ys[..i] + [ys[i]] + ys[i + 1..];
  }

  /** Taking one queue out of the middle of a list takes its count out of the tally. */
  lemma TallyRemove(p: Platform, ys: seq<string>, i: nat, start: Option<int>, end: Option<int>)
    requires i < |ys|
    ensures Tally(p, ys, start, end) == Tally(p, ys[..i] + ys[i + 1..], start, end) + QueueCount(p, ys[i], start, end)
  {
    var ys1, ys2 := ys[..i], ys[i + 1..];
    assert ys == (ys1 + [ys[i]]) + ys2;
    TallyAppend(p, ys1 + [ys[i]], ys2, start, end);
    assert (ys1 + [ys[i]])[..|ys1|] == ys1;
    TallyAppend(p, ys1, ys2, start, end);
  }

  /** The count does not depend on the order of the queues. */
  lemma {:induction false} TallyPermutation(p: Platform, xs: seq<string>, ys: seq<string>, start: Option<int>, end: Option<int>)
    requires multiset(xs) == multiset(ys)
    ensures Tally(p, xs, start, end) == Tally(p, ys, start, end)
    decreases |xs|
  {
    if xs == [] {
      assert |ys| == |multiset(ys)| == 0;
    } else {
      var n := |xs| - 1;
      var xs', x := xs[..n], xs[n];
      assert xs == xs' + [x];
      assert multiset(xs) == multiset(xs') + multiset{x};
      assert x in multiset(ys);
      var i :| 0 <= i < |ys| && ys[i] == x;
      var ys' := ys[..i] + ys[i + 1..];
      MultisetRemove(ys, i);
      assert multiset(xs') == multiset(ys');
      TallyPermutation(p, xs', ys', start, end);
      TallyRemove(p, ys, i, start, end);
      assert Tally(p, xs, start, end) == Tally(p, xs', start, end) + QueueCount(p, x, start, end);
    }
  }

  lemma TallyStep(p: Platform, evals: seq<string>, i: nat, start: Option<int>, end: Option<int>)
    requires i < |evals|
    ensures Tally(p, evals[..i + 1], start, end) == Tally(p, evals[..i], start, end) + QueueCount(p, evals[i], start, end)
  {
    assert evals[..i + 1][..i] == evals[..i];
  }

  /** `count_submissions`: one query per queue, the rows of all of them counted. */
  method CountSubmissions(p: Platform, evaluations: seq<string>, start: Option<string>, end: Option<string>)
    returns (total: nat)
    ensures total == Tally(p, evaluations, ConvertBound(start, p.toEpoch), ConvertBound(end, p.toEpoch))
  {
    var lo := ConvertBound(start, p.toEpoch);
    var hi := ConvertBound(end, p.toEpoch);
    total := 0;
    for i := 0 to |evaluations|
      invariant total == Tally(p, evaluations[..i], lo, hi)
    {
      var query := BaseQuery(evaluations[i]);
      ghost var before := query;
      if Truthy(lo) {
        query := query + ClauseText(StartOp, lo.value);
      }
      AppendClause(before, StartOp, lo);
      before := query;
      if Truthy(hi) {
        query := query + ClauseText(EndOp, hi.value);
      }
      AppendClause(before, EndOp, hi);
      TallyStep(p, evaluations, i, lo, hi);
      total := total + |p.queueQuery(query)|;
    }
    assert evaluations[..|evaluations|] == evaluations;
  }

  // ---------------------------------------------------------------- the report

  /** The distinct `ownerId`s of a team's members. */
  function OwnerIds(members: seq<TeamMember>): set<string>
  {
    set m | m in members :: m.ownerId
  }

  /** A team has at most as many distinct participants as member records. */
  lemma {:induction false} OwnerIdsBound(members: seq<TeamMember>)
    ensures |OwnerIds(members)| <= |members|
    decreases |members|
  {
    if members != [] {
      var init := members[..|members| - 1];
      OwnerIdsBound(init);
      assert OwnerIds(members) == OwnerIds(init) + {members[|members| - 1].ownerId};
    }
  }

  function Participants(p: Platform, challenge: string): set<string>
  {
    OwnerIds(p.teamSet(GetChallengeInfo(p, challenge).team))
  }

  /** The fields printed for one challenge: id, name, team, participants, submissions. */
  function ReportFields(info: ChallengeInfo, participants: nat, submissions: nat): seq<string>
  {
    [info.cid, info.name, info.team, NatToString(participants), NatToString(submissions)]
  }

  function ReportLine(info: ChallengeInfo, participants: nat, submissions: nat): string
  {
    Join('\t', ReportFields(info, participants, submissions))
  }

  /** Submissions counted for one challenge. */
  function ChallengeSubmissions(p: Platform, challenge: string, start: Option<string>, end: Option<string>): nat
  {
    Tally(p, GetChallengeInfo(p, challenge).evalIds, ConvertBound(start, p.toEpoch), ConvertBound(end, p.toEpoch))
  }

  function ChallengeLine(p: Platform, challenge: string, start: Option<string>, end: Option<string>): string
  {
    ReportLine(GetChallengeInfo(p, challenge), |Participants(p, challenge)|, ChallengeSubmissions(p, challenge, start, end))
  }

  function ChallengeLines(p: Platform, challenges: seq<string>, start: Option<string>, end: Option<string>): (lines: seq<string>)
    ensures |lines| == |challenges|
  {
    if challenges == [] then []
    else ChallengeLines(p, challenges[..|challenges| - 1], start, end) + [ChallengeLine(p, challenges[|challenges| - 1], start, end)]
  }

  /** Participants of all challenges so far, each counted once. */
  function UniqueUsers(p: Platform, challenges: seq<string>): set<string>
  {
    if challenges == [] then {}
    else UniqueUsers(p, challenges[..|challenges| - 1]) + Participants(p, challenges[|challenges| - 1])
  }

  /** Submissions of all challenges so far. */
  function TotalSubmissions(p: Platform, challenges: seq<string>, start: Option<string>, end: Option<string>): nat
  {
    if challenges == [] then 0
    else
      TotalSubmissions(p, challenges[..|challenges| - 1], start, end)
      + ChallengeSubmissions(p, challenges[|challenges| - 1], start, end)
  }

  const Rule: string := Repeat('=', 20)
  const RegistrantsLabel: string := "Total registrants for challenges: "
  const SubmissionsLabel: string := "Total submissions for challenges: "

  /** Everything `print_report` prints, one string per line. */
  function ReportOutput(p: Platform, challenges: seq<string>, start: Option<string>, end: Option<string>): seq<string>
  {
    ChallengeLines(p, challenges, start, end)
    + [Rule,
       RegistrantsLabel + NatToString(|UniqueUsers(p, challenges)|),
       SubmissionsLabel + NatToString(TotalSubmissions(p, challenges, start, end))]
  }

  /** The accumulators after one more challenge. */
  lemma AccumulatorsStep(p: Platform, challenges: seq<string>, i: nat, start: Option<string>, end: Option<string>)
    requires i < |challenges|
    ensures UniqueUsers(p, challenges[..i + 1]) == UniqueUsers(p, challenges[..i]) + Participants(p, challenges[i])
    ensures TotalSubmissions(p, challenges[..i + 1], start, end)
      == TotalSubmissions(p, challenges[..i], start, end) + ChallengeSubmissions(p, challenges[i], start, end)
    ensures ChallengeLines(p, challenges[..i + 1], start, end)
      == ChallengeLines(p, challenges[..i], start, end) + [ChallengeLine(p, challenges[i], start, end)]
  {
    assert challenges[..i + 1][..i] == challenges[..i];
  }

  /** `print_report`: per challenge, its info, participants and submissions; the users
      and the submissions accumulated across challenges; the printed lines returned. */
  method PrintReport(p: Platform, challenges: seq<string>, start: Option<string>, end: Option<string>)
    returns (out: seq<string>)
    ensures out == ReportOutput(p, challenges, start, end)
  {
    var uniqueUsers: set<string> := {};
    var totalSubmissions: nat := 0;
    out := [];
    for i := 0 to |challenges|
      invariant uniqueUsers == UniqueUsers(p, challenges[..i])
      invariant totalSubmissions == TotalSubmissions(p, challenges[..i], start, end)
      invariant out == ChallengeLines(p, challenges[..i], start, end)
    {
      AccumulatorsStep(p, challenges, i, start, end);
      var info := GetChallengeInfo(p, challenges[i]);
      var participants := OwnerIds(p.teamSet(info.team));
      assert participants == Participants(p, challenges[i]);
      uniqueUsers := uniqueUsers + participants;
      var submissions := CountSubmissions(p, info.evalIds, start, end);
      assert submissions == ChallengeSubmissions(p, challenges[i], start, end);
      totalSubmissions := totalSubmissions + submissions;
      assert ReportLine(info, |participants|, submissions) == ChallengeLine(p, challenges[i], start, end);
      out := out + [ReportLine(info, |participants|, submissions)];
    }
    assert challenges[..|challenges|] == challenges;
    assert out == ChallengeLines(p, challenges, start, end);
    assert uniqueUsers == UniqueUsers(p, challenges);
    assert totalSubmissions == TotalSubmissions(p, challenges, start, end);
    out := out + [Rule, RegistrantsLabel + NatToString(|uniqueUsers|), SubmissionsLabel + NatToString(totalSubmissions)];
  }

  lemma {:induction false} ChallengeLinesAt(p: Platform, challenges: seq<string>, start: Option<string>, end: Option<string>, i: nat)
    requires i < |challenges|
    ensures ChallengeLines(p, challenges, start, end)[i] == ChallengeLine(p, challenges[i], start, end)
    decreases |challenges|
  {
    var init, last := challenges[..|challenges| - 1], challenges[|challenges| - 1];
    var lines := ChallengeLines(p, init, start, end);
    assert ChallengeLines(p, challenges, start, end) == lines + [ChallengeLine(p, last, start, end)];
    if i < |init| {
      ChallengeLinesAt(p, init, start, end, i);
      assert init[i] == challenges[i];
      assert (lines + [ChallengeLine(p, last, start, end)])[i] == lines[i];
    } else {
      assert i == |lines| && challenges[i] == last;
      assert (lines + [ChallengeLine(p, last, start, end)])[i] == ChallengeLine(p, last, start, end);
    }
  }

  /** One line per challenge, in input order, followed by the rule and the two totals. */
  lemma ReportLinesInOrder(p: Platform, challenges: seq<string>, start: Option<string>, end: Option<string>)
    ensures |ReportOutput(p, challenges, start, end)| == |challenges| + 3
    ensures forall i :: 0 <= i < |challenges| ==>
      ReportOutput(p, challenges, start, end)[i] == ChallengeLine(p, challenges[i], start, end)
    ensures ReportOutput(p, challenges, start, end)[|challenges|] == Rule
  {
    forall i | 0 <= i < |challenges|
      ensures ReportOutput(p, challenges, start, end)[i] == ChallengeLine(p, challenges[i], start, end)
    {
      ChallengeLinesAt(p, challenges, start, end, i);
    }
  }

  /** The fields of a challenge line are recovered by splitting it at its tabs. */
  lemma ChallengeLineFields(p: Platform, challenge: string, start: Option<string>, end: Option<string>)
    requires var info := GetChallengeInfo(p, challenge);
      '\t' !in info.cid && '\t' !in info.name && '\t' !in info.team
    ensures Split(ChallengeLine(p, challenge, start, end), '\t') ==
      ReportFields(GetChallengeInfo(p, challenge), |Participants(p, challenge)|, ChallengeSubmissions(p, challenge, start, end))
  {
    var fields := ReportFields(GetChallengeInfo(p, challenge), |Participants(p, challenge)|, ChallengeSubmissions(p, challenge, start, end));
    forall k | 0 <= k < |fields| ensures '\t' !in fields[k] {
      if k >= 3 {
        assert AllDigits(fields[k]);
      }
    }
    SplitJoin('\t', fields);
  }

  /** A user is counted among the registrants exactly when they take part in one of the challenges. */
  lemma {:induction false} UniqueUsersMembership(p: Platform, challenges: seq<string>, x: string)
    ensures x in UniqueUsers(p, challenges) <==>
      exists i :: 0 <= i < |challenges| && x in Participants(p, challenges[i])
    decreases |challenges|
  {
    if challenges != [] {
      var init := challenges[..|challenges| - 1];
      UniqueUsersMembership(p, init, x);
      assert forall i :: 0 <= i < |init| ==> init[i] == challenges[i];
    }
  }

  /** Members shared by two challenges are registrants once: the registrant total is the size
      of the union, the sum of the two participant counts less the shared ones. */
  lemma RegistrantsOfTwo(p: Platform, c1: string, c2: string)
    ensures |UniqueUsers(p, [c1, c2])| ==
      |Participants(p, c1)| + |Participants(p, c2)| - |Participants(p, c1) * Participants(p, c2)|
  {
    var a, b := Participants(p, c1), Participants(p, c2);
    assert [c1, c2][..1] == [c1] && [c1][..0] == [];
    assert UniqueUsers(p, [c1]) == a;
    assert UniqueUsers(p, [c1, c2]) == a + b;
    UnionSize(a, b);
  }

  lemma UnionSize(a: set<string>, b: set<string>)
    ensures |a + b| == |a| + |b| - |a * b|
  {
    assert a + b == a + (b - a);
    assert b == (b - a) + (a * b);
  }

  /** All evaluation-queue ids the report counts, challenge after challenge. */
  function AllEvalIds(p: Platform, challenges: seq<string>): seq<string>
  {
    if challenges == [] then []
    else AllEvalIds(p, challenges[..|challenges| - 1]) + GetChallengeInfo(p, challenges[|challenges| - 1]).evalIds
  }

  /** The submission total is the row count over all the challenges' kept queues together. */
  lemma {:induction false} TotalSubmissionsIsTallyOfAllQueues(p: Platform, challenges: seq<string>, start: Option<string>, end: Option<string>)
    ensures TotalSubmissions(p, challenges, start, end)
      == Tally(p, AllEvalIds(p, challenges), ConvertBound(start, p.toEpoch), ConvertBound(end, p.toEpoch))
    decreases |challenges|
  {
    if challenges != [] {
      var init := challenges[..|challenges| - 1];
      TotalSubmissionsIsTallyOfAllQueues(p, init, start, end);
      TallyAppend(p, AllEvalIds(p, init), GetChallengeInfo(p, challenges[|challenges| - 1]).evalIds,
                  ConvertBound(start, p.toEpoch), ConvertBound(end, p.toEpoch));
    }
  }
}
