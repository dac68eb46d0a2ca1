/**
 * Normalisation of one `/save` submission and the fields the server derives
 * from it (server.js lines 37-49 and the user-agent and IP arguments of the
 * insert, lines 98-99).
 */
module Ingest {
  import opened Wrappers
  import opened Js

  /** The parts of an HTTP request the handler reads. `headers` has lower-case
      names, as Node delivers them; `remoteAddress` is the socket's peer address,
      which Node leaves undefined on a destroyed socket. */
  datatype Request = Request(
    body: Json,
    query: map<string, Json>,
    headers: map<string, string>,
    remoteAddress: Option<string>)

  /** What lines 37-49 compute from a request. */
  datatype Submission = Submission(
    summary: Json,
    rounds: Json,
    pid: Json,
    study: Json,
    session: Json,
    aborted: bool,
    completedTrials: nat)

  /** `req.query.NAME`. */
  function Param(query: map<string, Json>, name: string): Json {
    Get(JObj(query), name)
  }

  /** `req.body?.summary || {}`: the summary object, replaced by `{}` when it is falsy. */
  function SummaryOf(body: Json): (r: Json)
    ensures Truthy(r)
    ensures Truthy(Get(body, "summary")) ==> r == Get(body, "summary")
    ensures !Truthy(Get(body, "summary")) ==> r == EmptyObject
  {
    Or(Get(body, "summary"), EmptyObject)
  }

  /** `req.body?.rounds ?? req.body?.trials ?? []`: the trial value, never nullish. */
  function TrialsOf(body: Json): (r: Json)
    ensures !Nullish(r)
    ensures !Nullish(Get(body, "rounds")) ==> r == Get(body, "rounds")
    ensures Nullish(Get(body, "rounds")) && !Nullish(Get(body, "trials")) ==> r == Get(body, "trials")
    ensures Nullish(Get(body, "rounds")) && Nullish(Get(body, "trials")) ==> r == JArr([])
  {
    Coalesce(Get(body, "rounds"), Coalesce(Get(body, "trials"), JArr([])))
  }

  /** The filter test of line 48, `r && r.phase === 'decision'`. */
  predicate IsDecision(r: Json) {
    Truthy(r) && Get(r, "phase") == JStr("decision")
  }

  /** Only an object whose own `phase` is exactly the string "decision" passes
      the test: no other truthy value has a `phase`, and `===` does not convert. */
  lemma IsDecisionMeansDecisionObject(r: Json)
    ensures IsDecision(r) <==> r.JObj? && "phase" in r.fields && r.fields["phase"] == JStr("decision")
  {
  }

  /** `r` is `s` with some entries left out and the others kept in their order. */
  predicate IsSubsequence(r: seq<Json>, s: seq<Json>)
    decreases |s|
  {
    if r == [] then true
    else if s == [] then false
    else if r[0] == s[0] then IsSubsequence(r[1..], s[1..])
    else IsSubsequence(r, s[1..])
  }

  /** `rounds.filter(r => r && r.phase === 'decision')`: the decision entries, in order. */
  function DecisionTrials(s: seq<Json>): (r: seq<Json>)
    ensures |r| <= |s|
    ensures forall x :: multiset(r)[x] == if IsDecision(x) then multiset(s)[x] else 0
    ensures IsSubsequence(r, s)
  {
    if s == [] then []
    else
      var rest := DecisionTrials(s[1..]);
      assert s == [s[0]] + s[1..];
      if IsDecision(s[0]) then
        assert ([s[0]] + rest)[1..] == rest;
        [s[0]] + rest
      else
        assert rest != [] ==> rest[0] in multiset(rest);
        rest
  }

  /** Lines 47-49: the number of decision entries of an array, 0 for a value that
      is not an array. */
  function CountCompleted(rounds: Json): (n: nat)
    ensures !rounds.JArr? ==> n == 0
    ensures rounds.JArr? ==> n <= |rounds.items|
  {
    if rounds.JArr? then |DecisionTrials(rounds.items)| else 0
  }

  /** The positions of the entries that pass the filter test. */
  ghost function DecisionIndices(s: seq<Json>): set<nat> {
    set i: nat | i < |s| && IsDecision(s[i])
  }

  /** Filtering a concatenation filters each part. */
  lemma {:induction false} DecisionTrialsAppend(a: seq<Json>, b: seq<Json>)
    ensures DecisionTrials(a + b) == DecisionTrials(a) + DecisionTrials(b)
  {
    if a == [] {
      assert a + b == b;
    } else {
      assert (a + b)[1..] == a[1..] + b;
      DecisionTrialsAppend(a[1..], b);
    }
  }

  /** Appending one entry adds one to the count exactly when it is a decision. */
  lemma {:induction false} CountCompletedSnoc(init: seq<Json>, last: Json)
    ensures CountCompleted(JArr(init + [last])) == CountCompleted(JArr(init)) + if IsDecision(last) then 1 else 0
  {
    DecisionTrialsAppend(init, [last]);
    assert [last][1..] == [];
    assert DecisionTrials([last]) == if IsDecision(last) then [last] else [];
  }

  /** Appending one entry adds its position to the decision positions exactly
      when it is a decision. */
  lemma DecisionIndicesSnoc(init: seq<Json>, last: Json)
    ensures DecisionIndices(init + [last]) == DecisionIndices(init) + if IsDecision(last) then {|init|} else {}
  {
    var s := init + [last];
    assert forall i :: 0 <= i < |init| ==> s[i] == init[i];
  }

  /** The count is exactly the number of positions holding a decision entry. */
  lemma {:induction false} CountCompletedPositions(s: seq<Json>)
    ensures CountCompleted(JArr(s)) == |DecisionIndices(s)|
  {
    if s != [] {
      var init, last := s[..|s| - 1], s[|s| - 1];
      assert s == init + [last];
      CountCompletedSnoc(init, last);
      DecisionIndicesSnoc(init, last);
      CountCompletedPositions(init);
    }
  }

  /** Every entry counts exactly when every entry is a decision, and none counts
      exactly when no entry is. */
  lemma {:induction false} CountCompletedExtremes(s: seq<Json>)
    ensures CountCompleted(JArr(s)) == |s| <==> forall i :: 0 <= i < |s| ==> IsDecision(s[i])
    ensures CountCompleted(JArr(s)) == 0 <==> forall i :: 0 <= i < |s| ==> !IsDecision(s[i])
  {
    if s != [] {
      CountCompletedExtremes(s[1..]);
      assert forall i :: 1 <= i < |s| ==> s[i] == s[1..][i - 1];
    }
  }

  /** `summary.prolific_pid || req.query.PROLIFIC_PID || null`. */
  function ParticipantId(summary: Json, query: map<string, Json>): (r: Json)
    ensures Truthy(r) || r == JNull
    ensures Truthy(Get(summary, "prolific_pid")) ==> r == Get(summary, "prolific_pid")
    ensures !Truthy(Get(summary, "prolific_pid")) && Truthy(Param(query, "PROLIFIC_PID")) ==>
              r == Param(query, "PROLIFIC_PID")
    ensures !Truthy(Get(summary, "prolific_pid")) && !Truthy(Param(query, "PROLIFIC_PID")) ==> r == JNull
  {
    Or(Get(summary, "prolific_pid"), Or(Param(query, "PROLIFIC_PID"), JNull))
  }

  /** `req.query.NAME || null`, for the study and session ids. */
  function QueryId(query: map<string, Json>, name: string): (r: Json)
    ensures Truthy(r) || r == JNull
    ensures Truthy(Param(query, name)) ==> r == Param(query, name)
    ensures !Truthy(Param(query, name)) ==> r == JNull
  {
    Or(Param(query, name), JNull)
  }

  /** Lines 37-49 together. */
  function Normalize(req: Request): (sub: Submission)
    ensures Truthy(sub.summary) && !Nullish(sub.rounds)
    ensures (Truthy(sub.pid) || sub.pid == JNull) && (Truthy(sub.study) || sub.study == JNull)
    ensures Truthy(sub.session) || sub.session == JNull
    ensures sub.completedTrials == CountCompleted(sub.rounds)
  {
    var summary := SummaryOf(req.body);
    var rounds := TrialsOf(req.body);
    Submission(
      summary,
      rounds,
      ParticipantId(summary, req.query),
      QueryId(req.query, "STUDY_ID"),
      QueryId(req.query, "SESSION_ID"),
      Truthy(Get(req.body, "aborted")) || Truthy(Get(summary, "aborted")),
      CountCompleted(rounds))
  }

  /** Stated on the raw request: the flag is set exactly when the body's or its
      summary's `aborted` is truthy; the `{}` that replaces a falsy summary
      contributes nothing. */
  lemma AbortedFromRequest(req: Request)
    ensures Normalize(req).aborted <==>
              Truthy(Get(req.body, "aborted")) || Truthy(Get(Get(req.body, "summary"), "aborted"))
  {
    GetThroughDefault(Get(req.body, "summary"), "aborted");
  }

  /** Stated on the raw request: the participant id is the summary's when that is
      truthy, else the query's when that is truthy, else null. */
  lemma ParticipantFromRequest(req: Request)
    ensures var fromSummary := Get(Get(req.body, "summary"), "prolific_pid");
            var fromQuery := Param(req.query, "PROLIFIC_PID");
            Normalize(req).pid == if Truthy(fromSummary) then fromSummary
                                  else if Truthy(fromQuery) then fromQuery
                                  else JNull
  {
    GetThroughDefault(Get(req.body, "summary"), "prolific_pid");
  }

  /** The summary's id wins over the query's, the query's is used when the
      summary has none, and with neither the id is null. */
  lemma ParticipantPrecedence(a: string, b: string)
    requires a != "" && b != ""
    ensures var query := map["PROLIFIC_PID" := JStr(b)];
            var withA := JObj(map["summary" := JObj(map["prolific_pid" := JStr(a)])]);
            var withoutA := JObj(map["summary" := EmptyObject]);
            && Normalize(Request(withA, query, map[], None)).pid == JStr(a)
            && Normalize(Request(withoutA, query, map[], None)).pid == JStr(b)
            && Normalize(Request(withoutA, map[], map[], None)).pid == JNull
  {
  }

  /** The count is recomputed from the trial value alone: no other field of the
      body, a client-supplied count included, can change it. */
  lemma CountIgnoresOtherFields(req: Request, k: string, v: Json)
    requires req.body.JObj? && k != "rounds" && k != "trials"
    ensures Normalize(req.(body := JObj(req.body.fields[k := v]))).completedTrials ==
            Normalize(req).completedTrials
  {
  }

  /** `rounds ?? …` is not `rounds || …`: a present but falsy `rounds` such as
      `false` is kept, so a `trials` fallback full of decisions is not counted. */
  lemma FalsyRoundsAreKept()
    ensures var decision := JObj(map["phase" := JStr("decision")]);
            var body := JObj(map["rounds" := JBool(false), "trials" := JArr([decision])]);
            Normalize(Request(body, map[], map[], None)).completedTrials == 0
  {
  }

  /** With `rounds` omitted, `trials` is counted. */
  lemma TrialsFallback()
    ensures var decision := JObj(map["phase" := JStr("decision")]);
            var body := JObj(map["trials" := JArr([decision])]);
            Normalize(Request(body, map[], map[], None)).completedTrials == 1
  {
    var decision := JObj(map["phase" := JStr("decision")]);
    assert DecisionTrials([decision]) == [decision] by {
      assert [decision][1..] == [];
    }
  }

  /** `s.split(',')[0]`: the part of `s` before its first comma. */
  function FirstSegment(s: string): (r: string)
    ensures r <= s
    ensures ',' !in r
    ensures |r| < |s| ==> s[|r|] == ','
  {
    if s == [] || s[0] == ',' then [] else [s[0]] + FirstSegment(s[1..])
  }

  /** The three properties above determine the segment: nothing else is a
      comma-free prefix that ends at the end of `s` or at a comma. */
  lemma {:induction false} FirstSegmentUnique(s: string, p: string)
    requires p <= s && ',' !in p && (|p| < |s| ==> s[|p|] == ',')
    ensures p == FirstSegment(s)
  {
    if p != [] {
      assert p[0] == s[0] && p[0] != ',';
      assert p[1..] <= s[1..];
      FirstSegmentUnique(s[1..], p[1..]);
    }
  }

  /** `req.headers[name]`: the header's string, or `undefined` when it is absent. */
  function Header(headers: map<string, string>, name: string): Json {
    if name in headers then JStr(headers[name]) else Undefined
  }

  /** `req.socket.remoteAddress`: a string, or `undefined`. */
  function RemoteValue(remote: Option<string>): Json {
    if remote.Some? then JStr(remote.value) else Undefined
  }

  /** `req.headers['x-forwarded-for'] || ''`. */
  function ForwardedFor(headers: map<string, string>): string {
    if "x-forwarded-for" in headers then headers["x-forwarded-for"] else ""
  }

  /** Line 99: the first comma-separated entry of `x-forwarded-for`, untrimmed,
      when it is not empty; otherwise the socket's address when that is a
      non-empty string; otherwise null (`None`). */
  function ClientIp(headers: map<string, string>, remote: Option<string>): (r: Option<string>)
    ensures r.Some? ==> r.value != ""
    ensures FirstSegment(ForwardedFor(headers)) != "" ==> r == Some(FirstSegment(ForwardedFor(headers)))
    ensures FirstSegment(ForwardedFor(headers)) == "" ==>
              r == if remote.Some? && remote.value != "" then remote else None
  {
    var first := FirstSegment(ForwardedFor(headers));
    if first != "" then Some(first)
    else if remote.Some? && remote.value != "" then remote
    else None
  }

  /** A forwarded-for header that starts with a comma, or an empty one, does not
      hide the socket address; a header without a comma is taken whole. */
  lemma {:induction false} ClientIpCases(headers: map<string, string>, remote: Option<string>)
    ensures var h := ForwardedFor(headers);
            (h == "" || h[0] == ',') ==> ClientIp(headers, remote) == ClientIp(map[], remote)
    ensures var h := ForwardedFor(headers);
            h != "" && ',' !in h ==> ClientIp(headers, remote) == Some(h)
  {
    var h := ForwardedFor(headers);
    if h != "" && ',' !in h {
      FirstSegmentUnique(h, h);
    }
  }

  /** The string encoding of the forwarded-for header is line 99's `|| ''`: an
      absent header and an empty one both read as the empty string. */
  lemma ForwardedForIsOr(headers: map<string, string>)
    ensures JStr(ForwardedFor(headers)) == Or(Header(headers, "x-forwarded-for"), JStr(""))
  {
  }

  /** `req.headers['user-agent'] || null`. */
  function UserAgentOf(headers: map<string, string>): (r: Option<string>)
    ensures r.Some? <==> "user-agent" in headers && headers["user-agent"] != ""
    ensures r.Some? ==> r.value == headers["user-agent"]
  {
    if "user-agent" in headers && headers["user-agent"] != "" then Some(headers["user-agent"]) else None
  }
}
