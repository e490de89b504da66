/** What clients report to the runner, and why the result does not depend on how their requests interleave. */
module Recorder {
  import opened Wrappers
  import opened Casefold
  import opened Framing

  /** The environment requests are answered from, and the foreign tests on names, paths and globs. */
  datatype World = World(
    rule: CaseRule,
    envs: FoldedMap,
    isText: string -> bool,
    isAbsolute: string -> bool,
    isGlob: string -> bool,
    globMatches: (string, string) -> bool)

  predicate QueryMatches(w: World, q: EnvQuery, name: string) {
    w.isText(name) && match q
                      case Glob(pattern) => w.globMatches(pattern, name)
                      case Prefix(prefix) => StartsWith(w.rule, name, prefix)
  }

  function Matches(w: World, q: EnvQuery): FoldedMap {
    map k | k in w.envs && QueryMatches(w, q, w.envs[k].name) :: w.envs[k]
  }

  /** Requests the handler takes: absolute paths and well-formed globs. */
  predicate IsAnswerable(w: World, r: Request) {
    match r
    case IgnoreInput(path) => w.isAbsolute(path)
    case IgnoreOutput(path) => w.isAbsolute(path)
    case GetEnvs(Glob(pattern), _) => w.isGlob(pattern)
    case _ => true
  }

  datatype Reply = Nothing | Value(value: Option<string>) | Entries(entries: FoldedMap)

  /** The reply computed from the environment alone, without looking at what was recorded. */
  function Direct(w: World, r: Request): Reply {
    match r
    case GetEnv(name, _) => Value(Lookup(w.rule, w.envs, name))
    case GetEnvs(q, _) => Entries(Matches(w, q))
    case _ => Nothing
  }

  /** A request for a variable is answered with the value of the one variable of that name, if there is one. */
  lemma ReplyIsTheVariable(w: World, name: string, tracked: bool, value: string)
    requires IsFoldedMap(w.rule, w.envs)
    ensures Direct(w, GetEnv(name, tracked)) == Value(Some(value)) <==>
            exists k :: k in w.envs && AreSameName(w.rule, w.envs[k].name, name) && w.envs[k].value == value
    ensures Direct(w, GetEnv(name, tracked)) == Value(None) <==>
            forall k :: k in w.envs ==> !AreSameName(w.rule, w.envs[k].name, name)
  {
    forall k | k in w.envs ensures AreSameName(w.rule, w.envs[k].name, name) <==> k == Fold(w.rule, name) {
      FoldsAlike(w.rule, w.envs[k].name, name);
    }
    var key := Fold(w.rule, name);
    assert key in w.envs ==> AreSameName(w.rule, w.envs[key].name, name);
  }

  /** A query is answered with the variables whose names are text and match it, as they are. */
  lemma QueryListsWhatMatches(w: World, q: EnvQuery, tracked: bool, k: string)
    ensures var entries := Direct(w, GetEnvs(q, tracked)).entries;
            && (k in entries <==>
                  && k in w.envs && w.isText(w.envs[k].name)
                  && match q
                     case Glob(pattern) => w.globMatches(pattern, w.envs[k].name)
                     case Prefix(prefix) =>
                       |prefix| <= |w.envs[k].name| && AreSameName(w.rule, w.envs[k].name[..|prefix|], prefix))
            && (k in entries ==> entries[k] == w.envs[k])
  {
    if q.Prefix? && k in w.envs {
      StartsWithSameName(w.rule, w.envs[k].name, q.prefix);
    }
  }

  datatype EnvRecord = EnvRecord(name: string, value: Option<string>)

  datatype Reports = Reports(
    ignoredInputs: set<string>,
    ignoredOutputs: set<string>,
    cacheDisabled: bool,
    trackedGetEnv: map<string, EnvRecord>,
    trackedGetEnvs: map<EnvQuery, FoldedMap>)

  const EMPTY := Reports({}, {}, false, map[], map[])

  /** The reports are exactly those of a set of requests; an env name may be spelled as in any of them. */
  ghost predicate IsReportOf(w: World, requests: set<Request>, reports: Reports) {
    && (forall path :: path in reports.ignoredInputs <==> IgnoreInput(path) in requests)
    && (forall path :: path in reports.ignoredOutputs <==> IgnoreOutput(path) in requests)
    && (reports.cacheDisabled <==> DisableCache in requests)
    && (forall name :: GetEnv(name, true) in requests ==> Fold(w.rule, name) in reports.trackedGetEnv)
    && (forall k :: k in reports.trackedGetEnv ==> IsEnvRecord(w, requests, k, reports.trackedGetEnv[k]))
    && (forall q :: q in reports.trackedGetEnvs <==> GetEnvs(q, true) in requests)
    && (forall q :: q in reports.trackedGetEnvs ==> reports.trackedGetEnvs[q] == Matches(w, q))
  }

  ghost predicate IsEnvRecord(w: World, requests: set<Request>, k: string, record: EnvRecord) {
    && Fold(w.rule, record.name) == k && GetEnv(record.name, true) in requests
    && record.value == Lookup(w.rule, w.envs, record.name)
  }

  /** Equal but for how env names are spelled. */
  predicate Agree(a: Reports, b: Reports) {
    && a.ignoredInputs == b.ignoredInputs && a.ignoredOutputs == b.ignoredOutputs && a.cacheDisabled == b.cacheDisabled
    && a.trackedGetEnvs == b.trackedGetEnvs
    && a.trackedGetEnv.Keys == b.trackedGetEnv.Keys
    && (forall k :: k in a.trackedGetEnv && k in b.trackedGetEnv ==> a.trackedGetEnv[k].value == b.trackedGetEnv[k].value)
  }

  /** A set of requests determines its reports; under the exact rule, to the letter. */
  lemma RequestsDetermineReports(w: World, requests: set<Request>, a: Reports, b: Reports)
    requires IsReportOf(w, requests, a) && IsReportOf(w, requests, b)
    ensures Agree(a, b)
    ensures w.rule.CaseSensitive? ==> a == b
  {
    forall k
      ensures k in a.trackedGetEnv <==> k in b.trackedGetEnv
      ensures k in a.trackedGetEnv && k in b.trackedGetEnv ==> a.trackedGetEnv[k].value == b.trackedGetEnv[k].value
      ensures k in a.trackedGetEnv && k in b.trackedGetEnv && w.rule.CaseSensitive? ==> a.trackedGetEnv[k] == b.trackedGetEnv[k]
    {
      if k in a.trackedGetEnv { FoldIsIdempotent(w.rule, a.trackedGetEnv[k].name); }
      if k in b.trackedGetEnv { FoldIsIdempotent(w.rule, b.trackedGetEnv[k].name); }
    }
    assert a.ignoredInputs == b.ignoredInputs;
    assert a.ignoredOutputs == b.ignoredOutputs;
    assert a.trackedGetEnvs == b.trackedGetEnvs;
    assert a.trackedGetEnv.Keys == b.trackedGetEnv.Keys;
    assert w.rule.CaseSensitive? ==> a.trackedGetEnv == b.trackedGetEnv;
  }

  /** What a tracked request was told is what the reports say. */
  lemma ReportsHoldTheReplies(w: World, requests: set<Request>, reports: Reports, r: Request)
    requires IsReportOf(w, requests, reports) && r in requests
    ensures r.GetEnv? && r.tracked ==>
              exists k :: k in reports.trackedGetEnv && AreSameName(w.rule, reports.trackedGetEnv[k].name, r.name)
                          && Value(reports.trackedGetEnv[k].value) == Direct(w, r)
    ensures r.GetEnvs? && r.tracked ==>
              r.query in reports.trackedGetEnvs && Entries(reports.trackedGetEnvs[r.query]) == Direct(w, r)
  {
    if r.GetEnv? && r.tracked {
      var k := Fold(w.rule, r.name);
      assert IsEnvRecord(w, requests, k, reports.trackedGetEnv[k]);
      FoldsAlike(w.rule, reports.trackedGetEnv[k].name, r.name);
    }
  }

  // ---------------------------------------------------------------- spellings

  /** A tracked request for the variable with the folded name `k`. */
  predicate Names(rule: CaseRule, r: Request, k: string) {
    r.GetEnv? && r.tracked && Fold(rule, r.name) == k
  }

  /** The first tracked request for the variable `k` spells it `name`. */
  ghost predicate IsFirstSpelling(rule: CaseRule, taken: seq<Request>, k: string, name: string) {
    exists i :: 0 <= i < |taken| && Names(rule, taken[i], k) && taken[i].name == name && IsUnnamed(rule, taken[..i], k)
  }

  ghost predicate IsUnnamed(rule: CaseRule, taken: seq<Request>, k: string) {
    forall r :: r in taken ==> !Names(rule, r, k)
  }

  function Taken(rs: seq<Request>): set<Request> {
    set r | r in rs
  }

  /** The reports of the requests taken, each name spelled as it was first asked for. */
  ghost predicate IsServedAs(w: World, taken: seq<Request>, reports: Reports) {
    && IsReportOf(w, Taken(taken), reports)
    && forall k :: k in reports.trackedGetEnv ==> IsFirstSpelling(w.rule, taken, k, reports.trackedGetEnv[k].name)
  }

  lemma MoreKeepsFirst(rule: CaseRule, taken: seq<Request>, r: Request, k: string, name: string)
    requires IsFirstSpelling(rule, taken, k, name)
    ensures IsFirstSpelling(rule, taken + [r], k, name)
  {
    var i :| 0 <= i < |taken| && Names(rule, taken[i], k) && taken[i].name == name && IsUnnamed(rule, taken[..i], k);
    assert (taken + [r])[..i] == taken[..i] && (taken + [r])[i] == taken[i];
  }

  lemma FirstSpellingIsUnique(rule: CaseRule, taken: seq<Request>, k: string, one: string, two: string)
    requires IsFirstSpelling(rule, taken, k, one) && IsFirstSpelling(rule, taken, k, two)
    ensures one == two
  {
    var i :| 0 <= i < |taken| && Names(rule, taken[i], k) && taken[i].name == one && IsUnnamed(rule, taken[..i], k);
    var j :| 0 <= j < |taken| && Names(rule, taken[j], k) && taken[j].name == two && IsUnnamed(rule, taken[..j], k);
    UnnamedBefore(rule, taken, k, i);
    UnnamedBefore(rule, taken, k, j);
  }

  lemma UnnamedBefore(rule: CaseRule, taken: seq<Request>, k: string, i: nat)
    requires i <= |taken| && IsUnnamed(rule, taken[..i], k)
    ensures forall j :: 0 <= j < i ==> !Names(rule, taken[j], k)
  {
    forall j | 0 <= j < i ensures !Names(rule, taken[j], k) {
      assert taken[..i][j] in taken[..i];
    }
  }

  lemma {:induction false} AFirstSpelling(rule: CaseRule, taken: seq<Request>, r: Request, k: string) returns (name: string)
    requires r in taken && Names(rule, r, k)
    ensures IsFirstSpelling(rule, taken, k, name)
  {
    var last := |taken| - 1;
    var init := taken[..last];
    assert taken == init + [taken[last]];
    if earlier :| earlier in init && Names(rule, earlier, k) {
      name := AFirstSpelling(rule, init, earlier, k);
      MoreKeepsFirst(rule, init, taken[last], k, name);
    } else {
      name := taken[last].name;
      assert IsUnnamed(rule, taken[..last], k);
    }
  }

  lemma KeepsSpellings(w: World, taken: seq<Request>, r: Request, reports: Reports)
    requires IsServedAs(w, taken, reports)
    ensures forall k :: k in reports.trackedGetEnv ==>
              && IsFirstSpelling(w.rule, taken + [r], k, reports.trackedGetEnv[k].name)
              && IsEnvRecord(w, Taken(taken + [r]), k, reports.trackedGetEnv[k])
    ensures Taken(taken + [r]) == Taken(taken) + {r}
  {
    forall k | k in reports.trackedGetEnv
      ensures IsFirstSpelling(w.rule, taken + [r], k, reports.trackedGetEnv[k].name)
      ensures IsEnvRecord(w, Taken(taken + [r]), k, reports.trackedGetEnv[k])
    {
      MoreKeepsFirst(w.rule, taken, r, k, reports.trackedGetEnv[k].name);
      assert IsEnvRecord(w, Taken(taken), k, reports.trackedGetEnv[k]);
    }
  }

  lemma ReportWithEnv(w: World, taken: seq<Request>, reports: Reports, name: string, tracked: bool, after: Reports)
    requires IsServedAs(w, taken, reports)
    requires after == if tracked && Fold(w.rule, name) !in reports.trackedGetEnv
                      then reports.(trackedGetEnv := reports.trackedGetEnv[Fold(w.rule, name) := EnvRecord(name, Lookup(w.rule, w.envs, name))])
                      else reports
    ensures IsServedAs(w, taken + [GetEnv(name, tracked)], after)
  {
    var r := GetEnv(name, tracked);
    KeepsSpellings(w, taken, r, reports);
    if tracked && Fold(w.rule, name) !in reports.trackedGetEnv {
      FirstMention(w, taken, reports, r);
      var k := Fold(w.rule, name);
      assert IsEnvRecord(w, Taken(taken + [r]), k, after.trackedGetEnv[k]);
      forall n | GetEnv(n, true) in Taken(taken + [r]) ensures Fold(w.rule, n) in after.trackedGetEnv {
        assert GetEnv(n, true) in Taken(taken) || n == name;
      }
    }
  }

  /** A name without a record has not been asked for yet. */
  lemma FirstMention(w: World, taken: seq<Request>, reports: Reports, r: Request)
    requires IsServedAs(w, taken, reports) && r.GetEnv? && r.tracked && Fold(w.rule, r.name) !in reports.trackedGetEnv
    ensures IsFirstSpelling(w.rule, taken + [r], Fold(w.rule, r.name), r.name)
  {
    var k := Fold(w.rule, r.name);
    forall earlier | earlier in taken ensures Names(w.rule, earlier, k) ==> k in reports.trackedGetEnv {
      assert earlier in Taken(taken);
    }
    assert (taken + [r])[..|taken|] == taken && (taken + [r])[|taken|] == r;
  }

  /** Requests that only state something are added to what was stated. */
  lemma ReportWithStatement(w: World, taken: seq<Request>, reports: Reports, r: Request, after: Reports)
    requires IsServedAs(w, taken, reports)
    requires match r
             case IgnoreInput(path) => after == reports.(ignoredInputs := reports.ignoredInputs + {path})
             case IgnoreOutput(path) => after == reports.(ignoredOutputs := reports.ignoredOutputs + {path})
             case DisableCache => after == reports.(cacheDisabled := true)
             case _ => false
    ensures IsServedAs(w, taken + [r], after)
  {
    KeepsSpellings(w, taken, r, reports);
  }

  lemma ReportWithQuery(w: World, taken: seq<Request>, reports: Reports, q: EnvQuery, tracked: bool, after: Reports)
    requires IsServedAs(w, taken, reports)
    requires after == if tracked && q !in reports.trackedGetEnvs
                      then reports.(trackedGetEnvs := reports.trackedGetEnvs[q := Matches(w, q)])
                      else reports
    ensures IsServedAs(w, taken + [GetEnvs(q, tracked)], after)
  {
    KeepsSpellings(w, taken, GetEnvs(q, tracked), reports);
  }

  /** Collects reports; `taken` are the requests so far. */
  class Recorder {
    const w: World
    var ignoredInputs: set<string>
    var ignoredOutputs: set<string>
    var cacheDisabled: bool
    var trackedGetEnv: map<string, EnvRecord>
    var trackedGetEnvs: map<EnvQuery, FoldedMap>
    ghost var taken: seq<Request>

    function IntoReports(): Reports
      reads this
    {
      Reports(ignoredInputs, ignoredOutputs, cacheDisabled, trackedGetEnv, trackedGetEnvs)
    }

    ghost predicate Valid()
      reads this
    {
      IsServedAs(w, taken, IntoReports()) && forall r :: r in taken ==> IsAnswerable(w, r)
    }

    constructor (w: World)
      ensures Valid() && this.w == w && taken == [] && IntoReports() == EMPTY
    {
      this.w := w;
      ignoredInputs, ignoredOutputs, cacheDisabled := {}, {}, false;
      trackedGetEnv, trackedGetEnvs := map[], map[];
      taken := [];
    }

    method IgnoreInput(path: string)
      requires Valid() && w.isAbsolute(path)
      modifies this
      ensures Valid() && taken == old(taken) + [Request.IgnoreInput(path)]
    {
      ghost var before := IntoReports();
      ignoredInputs := ignoredInputs + {path};
      ReportWithStatement(w, taken, before, Request.IgnoreInput(path), IntoReports());
      taken := taken + [Request.IgnoreInput(path)];
    }

    method IgnoreOutput(path: string)
      requires Valid() && w.isAbsolute(path)
      modifies this
      ensures Valid() && taken == old(taken) + [Request.IgnoreOutput(path)]
    {
      ghost var before := IntoReports();
      ignoredOutputs := ignoredOutputs + {path};
      ReportWithStatement(w, taken, before, Request.IgnoreOutput(path), IntoReports());
      taken := taken + [Request.IgnoreOutput(path)];
    }

    method DisableCache()
      requires Valid()
      modifies this
      ensures Valid() && taken == old(taken) + [Request.DisableCache]
    {
      ghost var before := IntoReports();
      cacheDisabled := true;
      ReportWithStatement(w, taken, before, Request.DisableCache, IntoReports());
      taken := taken + [Request.DisableCache];
    }

    method GetEnv(name: string, tracked: bool) returns (value: Option<string>)
      requires Valid()
      modifies this
      ensures Valid() && taken == old(taken) + [Request.GetEnv(name, tracked)]
      ensures value == Lookup(w.rule, w.envs, name)
      ensures forall k :: k in old(trackedGetEnv) ==> k in trackedGetEnv && trackedGetEnv[k] == old(trackedGetEnv[k])
    {
      value := Lookup(w.rule, w.envs, name);
      var key, records := Fold(w.rule, name), trackedGetEnv;
      if tracked && key !in records {
        records := records[key := EnvRecord(name, value)];
      }
      ReportWithEnv(w, taken, IntoReports(), name, tracked, IntoReports().(trackedGetEnv := records));
      trackedGetEnv, taken := records, taken + [Request.GetEnv(name, tracked)];
    }

    /** A query already recorded is answered from the record, whether or not this one is tracked. */
    method GetEnvs(query: EnvQuery, tracked: bool) returns (matches: Option<FoldedMap>)
      requires Valid()
      modifies this
      ensures Valid()
      ensures matches == if IsAnswerable(w, Request.GetEnvs(query, tracked)) then Some(Matches(w, query)) else None
      ensures taken == old(taken) + if matches.Some? then [Request.GetEnvs(query, tracked)] else []
      ensures matches.None? ==> IntoReports() == old(IntoReports())
    {
      ghost var before := IntoReports();
      if query in trackedGetEnvs {
        matches := Some(trackedGetEnvs[query]);
        ReportWithQuery(w, taken, before, query, tracked, IntoReports());
        taken := taken + [Request.GetEnvs(query, tracked)];
        return;
      }
      if query.Glob? && !w.isGlob(query.pattern) {
        return None;
      }
      var found := Matches(w, query);
      if tracked {
        trackedGetEnvs := trackedGetEnvs[query := found];
      }
      matches := Some(found);
      ReportWithQuery(w, taken, before, query, tracked, IntoReports());
      taken := taken + [Request.GetEnvs(query, tracked)];
    }

    /** One request from any client; nothing for one that is refused. */
    method Handle(r: Request) returns (reply: Option<Reply>)
      requires Valid()
      modifies this
      ensures Valid()
      ensures reply == if IsAnswerable(w, r) then Some(Direct(w, r)) else None
      ensures taken == old(taken) + if reply.Some? then [r] else []
      ensures reply.None? ==> IntoReports() == old(IntoReports())
    {
      match r {
        case IgnoreInput(path) =>
          if !w.isAbsolute(path) { return None; }
          IgnoreInput(path);
          reply := Some(Nothing);
        case IgnoreOutput(path) =>
          if !w.isAbsolute(path) { return None; }
          IgnoreOutput(path);
          reply := Some(Nothing);
        case DisableCache =>
          DisableCache();
          reply := Some(Nothing);
        case GetEnv(name, tracked) =>
          var value := GetEnv(name, tracked);
          reply := Some(Value(value));
        case GetEnvs(query, tracked) =>
          var matches := GetEnvs(query, tracked);
          reply := if matches.Some? then Some(Entries(matches.value)) else None;
      }
    }
  }

  // ---------------------------------------------------------------- interleavings

  /** `merged` takes the requests of every client in that client's order. */
  ghost predicate IsMerge(clients: seq<seq<Request>>, merged: seq<Request>)
    decreases |merged|
  {
    if merged == [] then forall i :: 0 <= i < |clients| ==> clients[i] == []
    else exists i: nat :: IsMergeStep(clients, i, merged[0]) && IsMerge(clients[i := clients[i][1..]], merged[1..])
  }

  ghost predicate IsMergeStep(clients: seq<seq<Request>>, i: nat, r: Request) {
    i < |clients| && clients[i] != [] && clients[i][0] == r
  }

  ghost predicate IsRequested(clients: seq<seq<Request>>, r: Request) {
    exists i :: 0 <= i < |clients| && r in clients[i]
  }

  /** Requests are neither lost nor invented by interleaving. */
  lemma {:induction false} MergeKeepsRequests(clients: seq<seq<Request>>, merged: seq<Request>, r: Request)
    requires IsMerge(clients, merged)
    ensures r in merged <==> IsRequested(clients, r)
    decreases |merged|
  {
    if merged != [] {
      var i: nat :| IsMergeStep(clients, i, merged[0]) && IsMerge(clients[i := clients[i][1..]], merged[1..]);
      var rest := clients[i := clients[i][1..]];
      MergeKeepsRequests(rest, merged[1..], r);
      assert clients[i] == [clients[i][0]] + rest[i];
      assert merged == [merged[0]] + merged[1..];
      if IsRequested(rest, r) {
        var j :| 0 <= j < |rest| && r in rest[j];
        assert r in clients[j];
      }
      if IsRequested(clients, r) && r != merged[0] {
        var j :| 0 <= j < |clients| && r in clients[j];
        assert r in rest[j];
      }
    }
  }

  /** Serves requests in the order given; refused ones fail the server. */
  method Serve(w: World, merged: seq<Request>) returns (reports: Option<Reports>, replies: seq<Reply>)
    ensures reports.Some? <==> forall r :: r in merged ==> IsAnswerable(w, r)
    ensures reports.Some? ==> IsServedAs(w, merged, reports.value)
    ensures reports.Some? ==> |replies| == |merged| && forall i :: 0 <= i < |merged| ==> replies[i] == Direct(w, merged[i])
  {
    var recorder := new Recorder(w);
    var n := 0;
    replies := [];
    while n < |merged|
      invariant 0 <= n <= |merged| && recorder.Valid() && recorder.w == w && fresh(recorder)
      invariant recorder.taken == merged[..n]
      invariant |replies| == n && forall i :: 0 <= i < n ==> replies[i] == Direct(w, merged[i])
    {
      var reply := recorder.Handle(merged[n]);
      if reply.None? {
        assert merged[n] in merged;
        return None, replies;
      }
      assert merged[..n + 1] == merged[..n] + [merged[n]];
      replies := replies + [reply.value];
      n := n + 1;
    }
    assert merged[..n] == merged;
    reports := Some(recorder.IntoReports());
  }

  /**
   * However the clients' requests interleave, all orders are served or none is; the reports agree,
   * and under the exact rule they are equal.
   */
  lemma InterleavingDoesNotMatter(w: World, clients: seq<seq<Request>>, one: seq<Request>, two: seq<Request>, a: Reports, b: Reports)
    requires IsMerge(clients, one) && IsMerge(clients, two)
    requires IsReportOf(w, Taken(one), a) && IsReportOf(w, Taken(two), b)
    ensures (forall r :: r in one ==> IsAnswerable(w, r)) <==> (forall r :: r in two ==> IsAnswerable(w, r))
    ensures Agree(a, b)
    ensures w.rule.CaseSensitive? ==> a == b
  {
    SameRequests(clients, one, two);
    RequestsDetermineReports(w, Taken(one), a, b);
  }

  lemma SameRequests(clients: seq<seq<Request>>, one: seq<Request>, two: seq<Request>)
    requires IsMerge(clients, one) && IsMerge(clients, two)
    ensures Taken(one) == Taken(two)
    ensures forall r :: r in one <==> r in two
  {
    forall r
      ensures r in one <==> r in two
    {
      MergeKeepsRequests(clients, one, r);
      MergeKeepsRequests(clients, two, r);
    }
  }

  /** Both orders ask for the variable `k` in the same spelling first, or in neither is it asked for. */
  ghost predicate SpellAlike(rule: CaseRule, one: seq<Request>, two: seq<Request>, k: string) {
    forall name :: IsFirstSpelling(rule, one, k, name) <==> IsFirstSpelling(rule, two, k, name)
  }

  /** Two orders give the same reports, letter for letter, exactly if they spell every variable alike first. */
  lemma OnlySpellingsDependOnOrder(w: World, clients: seq<seq<Request>>, one: seq<Request>, two: seq<Request>, a: Reports, b: Reports)
    requires IsMerge(clients, one) && IsMerge(clients, two)
    requires IsServedAs(w, one, a) && IsServedAs(w, two, b)
    ensures a == b <==> forall k :: SpellAlike(w.rule, one, two, k)
  {
    SameRequests(clients, one, two);
    RequestsDetermineReports(w, Taken(one), a, b);
    if a == b {
      forall k, name ensures IsFirstSpelling(w.rule, one, k, name) <==> IsFirstSpelling(w.rule, two, k, name) {
        RecordedAsSpelled(w, one, a, k, name);
        RecordedAsSpelled(w, two, b, k, name);
      }
    }
    if forall k :: SpellAlike(w.rule, one, two, k) {
      forall k | k in a.trackedGetEnv ensures a.trackedGetEnv[k] == b.trackedGetEnv[k] {
        assert SpellAlike(w.rule, one, two, k);
        FirstSpellingIsUnique(w.rule, two, k, a.trackedGetEnv[k].name, b.trackedGetEnv[k].name);
      }
      assert a.trackedGetEnv == b.trackedGetEnv;
    }
  }

  /** The record of a variable carries its first spelling, and every spelled variable has one. */
  lemma RecordedAsSpelled(w: World, taken: seq<Request>, reports: Reports, k: string, name: string)
    requires IsServedAs(w, taken, reports)
    ensures IsFirstSpelling(w.rule, taken, k, name) <==> k in reports.trackedGetEnv && reports.trackedGetEnv[k].name == name
  {
    if IsFirstSpelling(w.rule, taken, k, name) {
      var i :| 0 <= i < |taken| && Names(w.rule, taken[i], k) && taken[i].name == name && IsUnnamed(w.rule, taken[..i], k);
      assert taken[i] == GetEnv(name, true) && taken[i] in Taken(taken);
      FirstSpellingIsUnique(w.rule, taken, k, name, reports.trackedGetEnv[k].name);
    }
  }

  /** Two clients spell a variable differently: in each order, which both may happen, the first spelling is recorded. */
  lemma SpellingFollowsTheFirst(w: World, one: string, two: string, a: Reports, b: Reports)
    requires Fold(w.rule, one) == Fold(w.rule, two)
    requires IsServedAs(w, [GetEnv(one, true), GetEnv(two, true)], a)
    requires IsServedAs(w, [GetEnv(two, true), GetEnv(one, true)], b)
    ensures IsMerge([[GetEnv(one, true)], [GetEnv(two, true)]], [GetEnv(one, true), GetEnv(two, true)])
    ensures IsMerge([[GetEnv(one, true)], [GetEnv(two, true)]], [GetEnv(two, true), GetEnv(one, true)])
    ensures Fold(w.rule, one) in a.trackedGetEnv && a.trackedGetEnv[Fold(w.rule, one)].name == one
    ensures Fold(w.rule, one) in b.trackedGetEnv && b.trackedGetEnv[Fold(w.rule, one)].name == two
  {
    FirstIsRecorded(w, GetEnv(one, true), GetEnv(two, true), a);
    FirstIsRecorded(w, GetEnv(two, true), GetEnv(one, true), b);
    MergesTwo(GetEnv(one, true), GetEnv(two, true));
  }

  /** So reports differ for `Path` and `PATH` where case is ignored. */
  lemma PathIsSpelledTwoWays(w: World, a: Reports, b: Reports)
    requires w.rule.AsciiCaseInsensitive?
    requires IsServedAs(w, [GetEnv("Path", true), GetEnv("PATH", true)], a)
    requires IsServedAs(w, [GetEnv("PATH", true), GetEnv("Path", true)], b)
    ensures a != b
  {
    PathFoldsToPATH();
    SpellingFollowsTheFirst(w, "Path", "PATH", a, b);
  }

  lemma PathFoldsToPATH()
    ensures Fold(AsciiCaseInsensitive, "Path") == Fold(AsciiCaseInsensitive, "PATH")
  {
    assert Fold(AsciiCaseInsensitive, "Path") == "PATH";
    assert Fold(AsciiCaseInsensitive, "PATH") == "PATH";
  }

  lemma FirstIsRecorded(w: World, first: Request, second: Request, reports: Reports)
    requires first.GetEnv? && first.tracked && IsServedAs(w, [first, second], reports)
    ensures var k := Fold(w.rule, first.name);
            k in reports.trackedGetEnv && reports.trackedGetEnv[k].name == first.name
  {
    var k := Fold(w.rule, first.name);
    assert [first, second][0] == first && [first, second][..0] == [];
    assert IsFirstSpelling(w.rule, [first, second], k, first.name);
    RecordedAsSpelled(w, [first, second], reports, k, first.name);
  }

  lemma MergesTwo(a: Request, b: Request)
    ensures IsMerge([[a], [b]], [a, b]) && IsMerge([[a], [b]], [b, a])
  {
    MergesLast([[], [b]], 1, b);
    MergesLast([[a], []], 0, a);
    assert [[a], [b]][0 := [a][1..]] == [[], [b]] && [[a], [b]][1 := [b][1..]] == [[a], []];
    assert [a, b][1..] == [b] && [b, a][1..] == [a];
    assert IsMergeStep([[a], [b]], 0, a) && IsMergeStep([[a], [b]], 1, b);
  }

  lemma MergesLast(clients: seq<seq<Request>>, i: nat, r: Request)
    requires i < |clients| && clients[i] == [r] && forall j :: 0 <= j < |clients| && j != i ==> clients[j] == []
    ensures IsMerge(clients, [r])
  {
    assert [r][1..] == [] && IsMerge(clients[i := clients[i][1..]], []);
    assert IsMergeStep(clients, i, r);
  }
}
