/** Which environment a task's process gets, and which part of it the cache key records. */
module EnvFingerprint {
  import opened Wrappers
  import opened Casefold

  type Digest = nat

  const MARKER := "VP_RUN"
  const COLOR := "FORCE_COLOR"

  /** The case rule of the platform, and the foreign tests and hash. */
  datatype World = World(
    rule: CaseRule,
    isText: string -> bool,
    isGlob: string -> bool,
    globMatches: (string, string) -> bool,
    hash: string -> Digest)
  {
    /** Globs compare names by the same rule as the map, and ASCII is text. */
    ghost predicate Valid() {
      && (forall pattern, a, b :: Fold(rule, a) == Fold(rule, b) && globMatches(pattern, a) ==> globMatches(pattern, b))
      && (forall a, b :: Fold(rule, a) == Fold(rule, b) && isText(a) ==> isText(b))
      && isText("1") && isText(MARKER) && isText(COLOR)
    }
  }

  /** Patterns for names that are hashed and for names that are only passed on. */
  datatype EnvConfig = EnvConfig(fingerprinted: set<string>, untracked: set<string>)

  predicate IsExclude(pattern: string) {
    pattern != "" && pattern[0] == '!'
  }

  predicate AreGlobs(w: World, patterns: set<string>) {
    forall p :: p in patterns ==> w.isGlob(if IsExclude(p) then p[1..] else p)
  }

  /** Some include pattern matches and no exclude pattern does. */
  predicate IsMatch(w: World, patterns: set<string>, name: string) {
    && (exists p :: p in patterns && !IsExclude(p) && w.globMatches(p, name))
    && (forall p :: p in patterns && IsExclude(p) ==> !w.globMatches(p[1..], name))
  }

  /** What is passed on: text names some pattern lets through. Excludes of either list apply to both. */
  function Passed(w: World, config: EnvConfig, envs: FoldedMap): FoldedMap {
    map k | k in envs && w.isText(envs[k].name) && IsMatch(w, config.untracked + config.fingerprinted, envs[k].name) :: envs[k]
  }

  /** Output is colored unless the task opted into the caller's choice. */
  function Resolved(w: World, config: EnvConfig, envs: FoldedMap): FoldedMap {
    InsertIfAbsent(w.rule, Passed(w, config, envs), COLOR, "1")
  }

  /** The entry of `envs` under key `k`, if its name is one to be hashed. */
  function Tracked(w: World, config: EnvConfig, envs: FoldedMap, k: string): Option<Entry> {
    if k in envs && w.isText(envs[k].name) && IsMatch(w, config.fingerprinted, envs[k].name) then Some(envs[k]) else None
  }

  /** What is recorded under the exact name `n` when `e` is the entry to be hashed for its variable. */
  function PrintOf(w: World, e: Option<Entry>, n: string): Option<Digest> {
    if e.Some? && e.value.name == n then Some(w.hash(e.value.value)) else None
  }

  function Get(prints: map<string, Digest>, n: string): Option<Digest> {
    if n in prints then Some(prints[n]) else None
  }

  ghost predicate HasBadValue(w: World, config: EnvConfig, envs: FoldedMap) {
    exists k :: Tracked(w, config, envs, k).Some? && !w.isText(envs[k].value)
  }

  datatype ResolveError = GlobError | NotUnicode(entry: Entry)

  /** Hashes the entries whose names match, in whatever order the map yields them. */
  method Fingerprint(w: World, config: EnvConfig, envs: FoldedMap) returns (r: Result<map<string, Digest>, ResolveError>)
    requires IsFoldedMap(w.rule, envs)
    ensures r.Err? ==> HasBadValue(w, config, envs) && r.error.NotUnicode?
    ensures r.Ok? ==> !HasBadValue(w, config, envs)
    ensures r.Ok? ==> forall n :: Get(r.value, n) == PrintOf(w, Tracked(w, config, envs, Fold(w.rule, n)), n)
  {
    var todo := envs.Keys;
    var prints: map<string, Digest> := map[];
    while todo != {}
      invariant todo <= envs.Keys
      invariant forall k :: k in envs && k !in todo && Tracked(w, config, envs, k).Some? ==> w.isText(envs[k].value)
      invariant forall n :: Get(prints, n) ==
                            if Fold(w.rule, n) in todo then None else PrintOf(w, Tracked(w, config, envs, Fold(w.rule, n)), n)
      decreases |todo|
    {
      var k :| k in todo;
      todo := todo - {k};
      var name, value := envs[k].name, envs[k].value;
      if w.isText(name) && IsMatch(w, config.fingerprinted, name) {
        if !w.isText(value) {
          assert Tracked(w, config, envs, k).Some?;
          return Err(NotUnicode(envs[k]));
        }
        prints := prints[name := w.hash(value)];
      }
    }
    r := Ok(prints);
  }

  /** Filters the environment, falls back to colored output, and fingerprints what is left. */
  method Resolve(w: World, config: EnvConfig, envs: FoldedMap)
    returns (r: Result<(FoldedMap, map<string, Digest>), ResolveError>)
    requires IsFoldedMap(w.rule, envs)
    ensures r.Err? <==> !AreGlobs(w, config.untracked + config.fingerprinted) || HasBadValue(w, config, Resolved(w, config, envs))
    ensures r.Err? ==> (r.error.GlobError? <==> !AreGlobs(w, config.untracked + config.fingerprinted))
    ensures r.Ok? ==> r.value.0 == Resolved(w, config, envs)
    ensures r.Ok? ==> forall n :: Get(r.value.1, n) == PrintOf(w, Tracked(w, config, r.value.0, Fold(w.rule, n)), n)
  {
    if !AreGlobs(w, config.untracked + config.fingerprinted) {
      return Err(GlobError);
    }
    var left := InsertIfAbsent(w.rule, Passed(w, config, envs), COLOR, "1");
    var prints := Fingerprint(w, config, left);
    r := match prints
         case Err(error) => Err(error)
         case Ok(value) => Ok((left, value));
  }

  // ---------------------------------------------------------------- the spawned process

  /** The last of the assignments before a command that names the variable. */
  function Assigned(w: World, prefix: seq<Entry>, k: string): (e: Option<Entry>)
    ensures e.Some? ==> e.value in prefix && Fold(w.rule, e.value.name) == k
  {
    if prefix == [] then None
    else if Fold(w.rule, prefix[|prefix| - 1].name) == k then Some(prefix[|prefix| - 1])
    else Assigned(w, prefix[..|prefix| - 1], k)
  }

  /** The entry of a map, if any. */
  function At(envs: FoldedMap, k: string): Option<Entry> {
    if k in envs then Some(envs[k]) else None
  }

  /** The entry recorded for a variable: its assignment, or else the resolved one if it is to be hashed. */
  function Recorded(w: World, config: EnvConfig, resolved: FoldedMap, prefix: seq<Entry>, k: string): Option<Entry> {
    if Assigned(w, prefix, k).Some? then Assigned(w, prefix, k) else Tracked(w, config, resolved, k)
  }

  /** The entry the process sees: its assignment, the marker, or what was passed on. */
  function Seen(w: World, base: FoldedMap, prefix: seq<Entry>, k: string): Option<Entry> {
    if Assigned(w, prefix, k).Some? then Assigned(w, prefix, k) else At(Insert(w.rule, base, MARKER, "1"), k)
  }

  /** The environment of the process and what the cache key records of it, nothing if caching is off. */
  datatype Plan = Plan(child: FoldedMap, prints: Option<map<string, Digest>>)

  ghost predicate IsChild(w: World, base: FoldedMap, prefix: seq<Entry>, child: FoldedMap) {
    forall k :: At(child, k) == Seen(w, base, prefix, k)
  }

  ghost predicate AreFingerprints(w: World, config: EnvConfig, base: FoldedMap, prefix: seq<Entry>, prints: map<string, Digest>) {
    forall n :: Get(prints, n) == PrintOf(w, Recorded(w, config, base, prefix, Fold(w.rule, n)), n)
  }

  method RecordAssignments(w: World, config: EnvConfig, base: FoldedMap, prefix: seq<Entry>, resolved: map<string, Digest>)
    returns (prints: map<string, Digest>)
    requires forall n :: Get(resolved, n) == PrintOf(w, Tracked(w, config, base, Fold(w.rule, n)), n)
    ensures AreFingerprints(w, config, base, prefix, prints)
  {
    prints := resolved;
    for i := 0 to |prefix|
      invariant AreFingerprints(w, config, base, prefix[..i], prints)
    {
      var name, value := prefix[i].name, prefix[i].value;
      assert prefix[..i + 1][..i] == prefix[..i];
      ghost var before := prints;
      prints := map n | n in prints && Fold(w.rule, n) != Fold(w.rule, name) :: prints[n];
      prints := prints[name := w.hash(value)];
      forall n
        ensures Get(prints, n) == PrintOf(w, Recorded(w, config, base, prefix[..i + 1], Fold(w.rule, n)), n)
      {
        assert Get(before, n) == PrintOf(w, Recorded(w, config, base, prefix[..i], Fold(w.rule, n)), n);
      }
    }
    assert prefix[..|prefix|] == prefix;
  }

  /** The marker cannot be filtered out or inherited; an assignment overrides even it. */
  method ApplyAssignments(w: World, base: FoldedMap, prefix: seq<Entry>) returns (child: FoldedMap)
    ensures IsChild(w, base, prefix, child)
  {
    child := Insert(w.rule, base, MARKER, "1");
    for i := 0 to |prefix|
      invariant IsChild(w, base, prefix[..i], child)
    {
      assert prefix[..i + 1][..i] == prefix[..i];
      ghost var before := child;
      child := Replace(w.rule, child, prefix[i].name, prefix[i].value);
      forall k
        ensures At(child, k) == Seen(w, base, prefix[..i + 1], k)
      {
        assert At(before, k) == Seen(w, base, prefix[..i], k);
      }
    }
    assert prefix[..|prefix|] == prefix;
  }

  method PlanSpawn(w: World, config: Option<EnvConfig>, envs: FoldedMap, prefix: seq<Entry>) returns (r: Result<Plan, ResolveError>)
    requires IsFoldedMap(w.rule, envs)
    ensures config.None? ==> r.Ok? && r.value.prints == None && IsChild(w, envs, prefix, r.value.child)
    ensures config.Some? ==> (r.Ok? <==> IsPlannable(w, config.value, envs))
    ensures config.Some? && r.Err? ==> (r.error.GlobError? <==> !AreGlobs(w, config.value.untracked + config.value.fingerprinted))
    ensures config.Some? && r.Ok? ==> IsPlan(w, config.value, envs, prefix, r.value)
  {
    var base := envs;
    var recorded: Option<map<string, Digest>> := None;
    if config.Some? {
      var resolved := Resolve(w, config.value, envs);
      if resolved.Err? {
        return Err(resolved.error);
      }
      base := resolved.value.0;
      var prints := RecordAssignments(w, config.value, base, prefix, resolved.value.1);
      recorded := Some(prints);
    }
    var child := ApplyAssignments(w, base, prefix);
    r := Ok(Plan(child, recorded));
  }

  ghost predicate IsPlannable(w: World, config: EnvConfig, envs: FoldedMap) {
    AreGlobs(w, config.untracked + config.fingerprinted) && !HasBadValue(w, config, Resolved(w, config, envs))
  }

  /** A cached plan, as `PlanSpawn` makes it. */
  ghost predicate IsPlan(w: World, config: EnvConfig, envs: FoldedMap, prefix: seq<Entry>, plan: Plan) {
    && plan.prints.Some?
    && IsChild(w, Resolved(w, config, envs), prefix, plan.child)
    && AreFingerprints(w, config, Resolved(w, config, envs), prefix, plan.prints.value)
  }

  // ---------------------------------------------------------------- what the process gets

  /** Some pattern that does not begin with `!` matches, and no pattern matches behind its `!`. */
  ghost predicate LetsThrough(w: World, patterns: set<string>, name: string) {
    && (exists p :: p in patterns && (p == "" || p[0] != '!') && w.globMatches(p, name))
    && (forall p :: "!" + p in patterns ==> !w.globMatches(p, name))
  }

  lemma MatchesWhatIsLetThrough(w: World, patterns: set<string>, name: string)
    ensures IsMatch(w, patterns, name) <==> LetsThrough(w, patterns, name)
  {
    if LetsThrough(w, patterns, name) {
      forall p | p in patterns && IsExclude(p) ensures !w.globMatches(p[1..], name) {
        assert p == "!" + p[1..];
      }
    }
    if IsMatch(w, patterns, name) {
      forall p: string | "!" + p in patterns ensures !w.globMatches(p, name) {
        assert ("!" + p)[1..] == p && IsExclude("!" + p);
      }
    }
  }

  /** The caller's variable under `k` has a name that the patterns of one list or the other let through. */
  ghost predicate IsPassedOn(w: World, config: EnvConfig, envs: FoldedMap, k: string) {
    k in envs && w.isText(envs[k].name) && LetsThrough(w, config.untracked + config.fingerprinted, envs[k].name)
  }

  /** `prefix[i]` is the last assignment to the variable `k`. */
  predicate IsLastAssignment(w: World, prefix: seq<Entry>, i: nat, k: string) {
    && i < |prefix| && Fold(w.rule, prefix[i].name) == k
    && forall j :: i < j < |prefix| ==> Fold(w.rule, prefix[j].name) != k
  }

  predicate IsUnassigned(w: World, prefix: seq<Entry>, k: string) {
    forall j :: 0 <= j < |prefix| ==> Fold(w.rule, prefix[j].name) != k
  }

  lemma {:induction false} FindAssignment(w: World, prefix: seq<Entry>, k: string) returns (i: nat)
    ensures Assigned(w, prefix, k).None? ==> IsUnassigned(w, prefix, k)
    ensures Assigned(w, prefix, k).Some? ==> IsLastAssignment(w, prefix, i, k) && Assigned(w, prefix, k).value == prefix[i]
  {
    i := 0;
    if prefix != [] {
      var last := |prefix| - 1;
      if Fold(w.rule, prefix[last].name) == k {
        i := last;
      } else {
        i := FindAssignment(w, prefix[..last], k);
        assert forall j :: 0 <= j < last ==> prefix[..last][j] == prefix[j];
      }
    }
  }

  lemma AssignedIsLast(w: World, prefix: seq<Entry>, k: string)
    ensures Assigned(w, prefix, k).None? <==> IsUnassigned(w, prefix, k)
    ensures forall i: nat :: IsLastAssignment(w, prefix, i, k) ==> Assigned(w, prefix, k) == Some(prefix[i])
  {
    var last := FindAssignment(w, prefix, k);
    forall i: nat | IsLastAssignment(w, prefix, i, k) ensures Assigned(w, prefix, k) == Some(prefix[i]) {
      assert !IsUnassigned(w, prefix, k);
      assert !(i < last) && !(last < i);
    }
  }

  /** A task whose caching is off gets everything around it, the marker and its assignments. */
  lemma UncachedChildGetsEverything(w: World, envs: FoldedMap, prefix: seq<Entry>, child: FoldedMap, k: string)
    requires IsChild(w, envs, prefix, child)
    ensures forall i: nat :: IsLastAssignment(w, prefix, i, k) ==> k in child && child[k] == prefix[i]
    ensures IsUnassigned(w, prefix, k) && k == Fold(w.rule, "VP_RUN") ==>
              k in child && child[k] == Entry(if k in envs then envs[k].name else "VP_RUN", "1")
    ensures IsUnassigned(w, prefix, k) && k != Fold(w.rule, "VP_RUN") ==>
              (k in child <==> k in envs) && (k in envs ==> child[k] == envs[k])
  {
    AssignedIsLast(w, prefix, k);
    assert At(child, k) == Seen(w, envs, prefix, k);
  }

  /**
   * A cached task gets its assignments, the last of each variable; the marker; of everything else
   * around it exactly what the patterns let through, spelled as it was; and the color fallback where
   * that is not among it.
   */
  lemma CachedChildGetsWhatIsLetThrough(w: World, config: EnvConfig, envs: FoldedMap, prefix: seq<Entry>, plan: Plan, k: string)
    requires IsPlan(w, config, envs, prefix, plan)
    ensures forall i: nat :: IsLastAssignment(w, prefix, i, k) ==> k in plan.child && plan.child[k] == prefix[i]
    ensures IsUnassigned(w, prefix, k) && k == Fold(w.rule, "VP_RUN") ==>
              k in plan.child && plan.child[k] == Entry(if IsPassedOn(w, config, envs, k) then envs[k].name else "VP_RUN", "1")
    ensures IsUnassigned(w, prefix, k) && k != Fold(w.rule, "VP_RUN") && IsPassedOn(w, config, envs, k) ==>
              k in plan.child && plan.child[k] == envs[k]
    ensures IsUnassigned(w, prefix, k) && k == Fold(w.rule, "FORCE_COLOR") && !IsPassedOn(w, config, envs, k) ==>
              k in plan.child && plan.child[k] == Entry("FORCE_COLOR", "1")
    ensures IsUnassigned(w, prefix, k) && k != Fold(w.rule, "VP_RUN") && k != Fold(w.rule, "FORCE_COLOR") ==>
              (k in plan.child <==> IsPassedOn(w, config, envs, k))
  {
    ResolvedIsPassedOn(w, config, envs, k);
    AssignedIsLast(w, prefix, k);
    assert At(plan.child, k) == Seen(w, Resolved(w, config, envs), prefix, k);
  }

  /** What is left after filtering, before the marker and the assignments. */
  lemma ResolvedIsPassedOn(w: World, config: EnvConfig, envs: FoldedMap, k: string)
    ensures At(Resolved(w, config, envs), k) ==
            if IsPassedOn(w, config, envs, k) then Some(envs[k])
            else if k == Fold(w.rule, "FORCE_COLOR") then Some(Entry("FORCE_COLOR", "1")) else None
    ensures Fold(w.rule, "FORCE_COLOR") != Fold(w.rule, "VP_RUN")
  {
    if k in envs {
      MatchesWhatIsLetThrough(w, config.untracked + config.fingerprinted, envs[k].name);
    }
    assert |Fold(w.rule, "FORCE_COLOR")| != |Fold(w.rule, "VP_RUN")|;
  }

  /**
   * The fingerprint of a cached task: of every variable its command assigns, the last value; of the
   * others, those the fingerprinted patterns let through among what was passed on or fell back.
   */
  lemma FingerprintRecordsWhatIsTracked(w: World, config: EnvConfig, envs: FoldedMap, prefix: seq<Entry>, plan: Plan, n: string)
    requires IsPlan(w, config, envs, prefix, plan)
    ensures forall i: nat :: IsLastAssignment(w, prefix, i, Fold(w.rule, n)) ==>
              (n in plan.prints.value <==> prefix[i].name == n)
              && (prefix[i].name == n ==> plan.prints.value[n] == w.hash(prefix[i].value))
    ensures IsUnassigned(w, prefix, Fold(w.rule, n)) && IsPassedOn(w, config, envs, Fold(w.rule, n)) ==>
              var e := envs[Fold(w.rule, n)];
              (n in plan.prints.value <==> e.name == n && LetsThrough(w, config.fingerprinted, n))
              && (n in plan.prints.value ==> plan.prints.value[n] == w.hash(e.value))
    ensures IsUnassigned(w, prefix, Fold(w.rule, n)) && !IsPassedOn(w, config, envs, Fold(w.rule, n)) ==>
              (n in plan.prints.value <==> n == "FORCE_COLOR" && w.isText(n) && LetsThrough(w, config.fingerprinted, n))
              && (n in plan.prints.value ==> plan.prints.value[n] == w.hash("1"))
  {
    var k := Fold(w.rule, n);
    ResolvedIsPassedOn(w, config, envs, k);
    AssignedIsLast(w, prefix, k);
    MatchesWhatIsLetThrough(w, config.fingerprinted, n);
    if k in Resolved(w, config, envs) {
      MatchesWhatIsLetThrough(w, config.fingerprinted, Resolved(w, config, envs)[k].name);
    }
    assert Get(plan.prints.value, n) == PrintOf(w, Recorded(w, config, Resolved(w, config, envs), prefix, k), n);
  }

  /** A task can be planned exactly if all its patterns are globs and no variable to be hashed has a value that is not text. */
  lemma PlannableUnlessBadValue(w: World, config: EnvConfig, envs: FoldedMap)
    requires w.Valid()
    ensures IsPlannable(w, config, envs) <==>
            && (forall p :: "!" + p in config.untracked || "!" + p in config.fingerprinted ==> w.isGlob(p))
            && (forall p :: p in config.untracked || p in config.fingerprinted ==> p == "" || p[0] != '!' ==> w.isGlob(p))
            && (forall k :: IsPassedOn(w, config, envs, k) && LetsThrough(w, config.fingerprinted, envs[k].name) ==>
                  w.isText(envs[k].value))
  {
    GlobsBehindTheBang(w, config.untracked + config.fingerprinted);
    forall k
      ensures Tracked(w, config, Resolved(w, config, envs), k).Some? && !w.isText(Resolved(w, config, envs)[k].value) <==>
              IsPassedOn(w, config, envs, k) && LetsThrough(w, config.fingerprinted, envs[k].name) && !w.isText(envs[k].value)
    {
      ResolvedIsPassedOn(w, config, envs, k);
      if k in envs {
        MatchesWhatIsLetThrough(w, config.fingerprinted, envs[k].name);
      }
      assert At(Resolved(w, config, envs), k).Some? <==> k in Resolved(w, config, envs);
    }
  }

  lemma GlobsBehindTheBang(w: World, patterns: set<string>)
    ensures AreGlobs(w, patterns) <==>
            && (forall p :: "!" + p in patterns ==> w.isGlob(p))
            && (forall p :: p in patterns ==> p == "" || p[0] != '!' ==> w.isGlob(p))
  {
    if AreGlobs(w, patterns) {
      forall p: string | "!" + p in patterns ensures w.isGlob(p) {
        assert ("!" + p)[1..] == p && IsExclude("!" + p);
      }
    }
    forall p | p in patterns && IsExclude(p) ensures p == "!" + p[1..] {
    }
  }

  // ---------------------------------------------------------------- what the fingerprint means

  /** The one fingerprinted variable whose value is replaced after it was hashed. */
  predicate IsOverwritten(w: World, prefix: seq<Entry>, k: string) {
    k == Fold(w.rule, MARKER) && Assigned(w, prefix, k).None?
  }

  lemma ResolvedIsFolded(w: World, config: EnvConfig, envs: FoldedMap)
    requires IsFoldedMap(w.rule, envs)
    ensures IsFoldedMap(w.rule, Resolved(w, config, envs))
  {
  }

  /**
   * Every fingerprinted variable is in the process's environment, spelled as recorded, with a value of
   * the recorded hash. For an unassigned marker that holds exactly if the caller's value hashes like `1`.
   */
  lemma FingerprintsMatchChild(w: World, config: EnvConfig, envs: FoldedMap, prefix: seq<Entry>, plan: Plan, n: string)
    requires IsFoldedMap(w.rule, envs) && IsPlan(w, config, envs, prefix, plan) && n in plan.prints.value
    ensures Fold(w.rule, n) in plan.child && plan.child[Fold(w.rule, n)].name == n
    ensures w.hash(plan.child[Fold(w.rule, n)].value) == plan.prints.value[n]
            <==> !IsOverwritten(w, prefix, Fold(w.rule, n)) || w.hash("1") == w.hash(Resolved(w, config, envs)[Fold(w.rule, n)].value)
  {
    var k := Fold(w.rule, n);
    assert Get(plan.prints.value, n) == PrintOf(w, Recorded(w, config, Resolved(w, config, envs), prefix, k), n);
    assert At(plan.child, k) == Seen(w, Resolved(w, config, envs), prefix, k);
  }

  /** The caller's own marker is hashed if the task asks for it, although the process always sees `1`. */
  lemma MarkerHashIsStale(w: World, plan: Plan)
    requires w.isText(MARKER) && w.globMatches(MARKER, MARKER) && w.hash("x") != w.hash("1")
    requires var envs := map[Fold(w.rule, MARKER) := Entry(MARKER, "x")];
             IsPlan(w, EnvConfig({MARKER}, {}), envs, [], plan)
    ensures MARKER in plan.prints.value && plan.prints.value[MARKER] == w.hash("x")
    ensures Fold(w.rule, MARKER) in plan.child && plan.child[Fold(w.rule, MARKER)].value == "1"
    ensures w.hash(plan.child[Fold(w.rule, MARKER)].value) != plan.prints.value[MARKER]
  {
    var config, k := EnvConfig({MARKER}, {}), Fold(w.rule, MARKER);
    var envs := map[k := Entry(MARKER, "x")];
    MarkerIsTracked(w);
    assert Get(plan.prints.value, MARKER) == PrintOf(w, Recorded(w, config, Resolved(w, config, envs), [], k), MARKER);
    assert At(plan.child, k) == Seen(w, Resolved(w, config, envs), [], k);
  }

  /** No variable is fingerprinted under two spellings. */
  lemma OneSpellingEach(w: World, config: EnvConfig, envs: FoldedMap, prefix: seq<Entry>, plan: Plan, a: string, b: string)
    requires IsPlan(w, config, envs, prefix, plan) && a in plan.prints.value && b in plan.prints.value
    requires Fold(w.rule, a) == Fold(w.rule, b)
    ensures a == b
  {
    var base := Resolved(w, config, envs);
    assert Get(plan.prints.value, a) == PrintOf(w, Recorded(w, config, base, prefix, Fold(w.rule, a)), a);
    assert Get(plan.prints.value, b) == PrintOf(w, Recorded(w, config, base, prefix, Fold(w.rule, b)), b);
  }

  /**
   * Nothing to be hashed escapes: a process variable whose name matches is fingerprinted, except exactly
   * a marker that is neither assigned nor passed on.
   */
  lemma MatchingVariablesAreFingerprinted(w: World, config: EnvConfig, envs: FoldedMap, prefix: seq<Entry>, plan: Plan, k: string)
    requires IsFoldedMap(w.rule, envs) && IsPlan(w, config, envs, prefix, plan) && k in plan.child
    requires w.isText(plan.child[k].name) && IsMatch(w, config.fingerprinted, plan.child[k].name)
    ensures plan.child[k].name in plan.prints.value
            <==> !(IsOverwritten(w, prefix, k) && k !in Resolved(w, config, envs))
  {
    var base := Resolved(w, config, envs);
    var n := plan.child[k].name;
    assert At(plan.child, k) == Seen(w, base, prefix, k);
    ResolvedIsFolded(w, config, envs);
    assert Get(plan.prints.value, n) == PrintOf(w, Recorded(w, config, base, prefix, Fold(w.rule, n)), n);
  }

  /** Two environments alike in everything whose name is to be hashed. */
  ghost predicate AgreeOnTracked(w: World, config: EnvConfig, one: FoldedMap, two: FoldedMap) {
    forall k :: Tracked(w, config, one, k) == Tracked(w, config, two, k)
  }

  lemma MatchRespectsCase(w: World, patterns: set<string>, a: string, b: string)
    requires w.Valid() && Fold(w.rule, a) == Fold(w.rule, b)
    ensures IsMatch(w, patterns, a) == IsMatch(w, patterns, b) && w.isText(a) == w.isText(b)
  {
  }

  /** Filtering does not break the agreement, although the color fallback looks at more than hashed names. */
  lemma ResolvedAgree(w: World, config: EnvConfig, one: FoldedMap, two: FoldedMap, k: string)
    requires w.Valid() && IsFoldedMap(w.rule, one) && IsFoldedMap(w.rule, two) && AgreeOnTracked(w, config, one, two)
    ensures Tracked(w, config, Resolved(w, config, one), k) == Tracked(w, config, Resolved(w, config, two), k)
  {
    assert Tracked(w, config, one, k) == Tracked(w, config, two, k);
    if k == Fold(w.rule, COLOR) {
      if k in one { MatchRespectsCase(w, config.fingerprinted, one[k].name, COLOR); }
      if k in two { MatchRespectsCase(w, config.fingerprinted, two[k].name, COLOR); }
    }
  }

  /** Only the names to be hashed matter: environments that agree on them plan alike and are fingerprinted alike. */
  lemma NothingElseInfluences(w: World, config: EnvConfig, prefix: seq<Entry>, one: FoldedMap, two: FoldedMap, a: Plan, b: Plan)
    requires w.Valid() && IsFoldedMap(w.rule, one) && IsFoldedMap(w.rule, two) && AgreeOnTracked(w, config, one, two)
    requires IsPlan(w, config, one, prefix, a) && IsPlan(w, config, two, prefix, b)
    ensures a.prints == b.prints
  {
    forall n
      ensures Get(a.prints.value, n) == Get(b.prints.value, n)
    {
      ResolvedAgree(w, config, one, two, Fold(w.rule, n));
    }
    SameMap(a.prints.value, b.prints.value);
  }

  lemma SameMap(a: map<string, Digest>, b: map<string, Digest>)
    requires forall n :: Get(a, n) == Get(b, n)
    ensures a == b
  {
    forall n
      ensures n in a <==> n in b
    {
      assert Get(a, n) == Get(b, n);
    }
    assert forall n :: n in a ==> Get(a, n) == Get(b, n);
  }

  lemma NothingElseBlocks(w: World, config: EnvConfig, one: FoldedMap, two: FoldedMap)
    requires w.Valid() && IsFoldedMap(w.rule, one) && IsFoldedMap(w.rule, two) && AgreeOnTracked(w, config, one, two)
    ensures IsPlannable(w, config, one) <==> IsPlannable(w, config, two)
  {
    forall k
      ensures Tracked(w, config, Resolved(w, config, one), k) == Tracked(w, config, Resolved(w, config, two), k)
    {
      ResolvedAgree(w, config, one, two, k);
    }
  }

  /**
   * With an injective hash, equal fingerprints mean equal values in the processes for every
   * fingerprinted variable, unless just one command line assigns the marker, and not to `1`. The
   * plans may come from different configurations: the patterns to be hashed are not recorded.
   */
  lemma EqualFingerprintsMeanEqualValues(
      w: World, config: EnvConfig, changed: EnvConfig, one: FoldedMap, two: FoldedMap,
      prefix: seq<Entry>, other: seq<Entry>, a: Plan, b: Plan, n: string)
    requires IsFoldedMap(w.rule, one) && IsFoldedMap(w.rule, two)
    requires IsPlan(w, config, one, prefix, a) && IsPlan(w, changed, two, other, b)
    requires forall u, v :: w.hash(u) == w.hash(v) ==> u == v
    requires a.prints == b.prints && n in a.prints.value
    ensures Fold(w.rule, n) in a.child && Fold(w.rule, n) in b.child
    ensures a.child[Fold(w.rule, n)] == b.child[Fold(w.rule, n)]
            <==> (IsOverwritten(w, prefix, Fold(w.rule, n)) <==> IsOverwritten(w, other, Fold(w.rule, n)))
                 || a.prints.value[n] == w.hash("1")
  {
    FingerprintsMatchChild(w, config, one, prefix, a, n);
    FingerprintsMatchChild(w, changed, two, other, b, n);
    assert At(a.child, Fold(w.rule, n)) == Seen(w, Resolved(w, config, one), prefix, Fold(w.rule, n));
    assert At(b.child, Fold(w.rule, n)) == Seen(w, Resolved(w, changed, two), other, Fold(w.rule, n));
  }

  /** `tool` and `VP_RUN=x tool`, run with `VP_RUN=x` around: one fingerprint, two values in the processes. */
  lemma AssignedMarkerLooksInherited(w: World, a: Plan, b: Plan)
    requires w.isText(MARKER) && w.globMatches(MARKER, MARKER)
    requires var envs := map[Fold(w.rule, MARKER) := Entry(MARKER, "x")];
             IsPlan(w, EnvConfig({MARKER}, {}), envs, [], a)
             && IsPlan(w, EnvConfig({MARKER}, {}), envs, [Entry(MARKER, "x")], b)
    ensures a.prints == b.prints
    ensures Fold(w.rule, MARKER) in a.child && a.child[Fold(w.rule, MARKER)].value == "1"
    ensures Fold(w.rule, MARKER) in b.child && b.child[Fold(w.rule, MARKER)].value == "x"
  {
    var config, k := EnvConfig({MARKER}, {}), Fold(w.rule, MARKER);
    var envs, prefix := map[k := Entry(MARKER, "x")], [Entry(MARKER, "x")];
    var base := Resolved(w, config, envs);
    MarkerIsTracked(w);
    forall n ensures Get(a.prints.value, n) == Get(b.prints.value, n) {
      assert Get(a.prints.value, n) == PrintOf(w, Recorded(w, config, base, [], Fold(w.rule, n)), n);
      assert Get(b.prints.value, n) == PrintOf(w, Recorded(w, config, base, prefix, Fold(w.rule, n)), n);
    }
    SameMap(a.prints.value, b.prints.value);
    assert At(a.child, k) == Seen(w, base, [], k) && At(b.child, k) == Seen(w, base, prefix, k);
  }

  lemma MarkerIsTracked(w: World)
    requires w.isText(MARKER) && w.globMatches(MARKER, MARKER)
    ensures var k, config := Fold(w.rule, MARKER), EnvConfig({MARKER}, {});
            Tracked(w, config, Resolved(w, config, map[k := Entry(MARKER, "x")]), k) == Some(Entry(MARKER, "x"))
  {
    var config, k := EnvConfig({MARKER}, {}), Fold(w.rule, MARKER);
    assert !IsExclude(MARKER) && MARKER in config.untracked + config.fingerprinted;
    assert k in Passed(w, config, map[k := Entry(MARKER, "x")]);
    assert |COLOR| != |MARKER|;
  }
}
