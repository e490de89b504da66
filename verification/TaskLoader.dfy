/** The loader behind the task graph: the tasks of a package, and what their `dependsOn` selects. */
module TaskLoader {
  import opened Wrappers
  import opened ExecutionGraph
  import opened QueryGraph
  import opened LazyGraph

  // ---------------------------------------------------------------- loading a package

  datatype Source = TaskConfig | PackageJsonScript
  datatype TaskEntry = TaskEntry(name: string, resolves: bool, dependsOn: seq<DependsOn>)
  datatype LoadedTask = LoadedTask(id: TaskId, source: Source, dependsOn: seq<DependsOn>)

  /** A package's config: its named tasks, whether it sets root-only fields, and whether those fields check out. */
  datatype PackageConfig = PackageConfig(tasks: seq<TaskEntry>, setsCache: bool, setsHooks: bool, fieldsAreConsistent: bool)

  datatype LoadError =
    | ConfigUnreadable
    | CacheInNonRootPackage
    | PrePostScriptsInNonRootPackage
    | ScriptConflict(name: string)
    | UnresolvableTask(name: string)
    | InconsistentCacheFields

  ghost predicate HaveDistinctNames(tasks: seq<TaskEntry>) {
    forall i, j :: 0 <= i < j < |tasks| ==> tasks[i].name != tasks[j].name
  }

  /** Every task of the config and every script, each under its own id. */
  ghost predicate AreTasksOf(package: nat, config: PackageConfig, scripts: set<string>, tasks: seq<LoadedTask>) {
    && (forall task :: task in tasks ==> task.id.package == package)
    && (forall i, j :: 0 <= i < j < |tasks| ==> tasks[i].id != tasks[j].id)
    && (forall entry :: entry in config.tasks ==>
          LoadedTask(TaskId(package, entry.name), TaskConfig, entry.dependsOn) in tasks)
    && (forall name :: name in scripts ==> LoadedTask(TaskId(package, name), PackageJsonScript, []) in tasks)
    && |tasks| == |config.tasks| + |scripts|
  }

  /** `scripts` are the package's scripts and whether each resolves. */
  method Load(package: nat, isRoot: bool, read: Option<PackageConfig>, scripts: map<string, bool>)
    returns (r: Result<seq<LoadedTask>, LoadError>)
    requires read.Some? ==> HaveDistinctNames(read.value.tasks)
    ensures r.Ok? ==> read.Some? && AreTasksOf(package, read.value, scripts.Keys, r.value)
    ensures r.Ok? <==>
              && read.Some?
              && (isRoot || (!read.value.setsCache && !read.value.setsHooks))
              && read.value.fieldsAreConsistent
              && (forall entry :: entry in read.value.tasks ==> entry.name !in scripts && entry.resolves)
              && (forall name :: name in scripts ==> scripts[name])
  {
    if read.None? {
      return Err(ConfigUnreadable);
    }
    var config := read.value;
    if !isRoot && config.setsCache {
      return Err(CacheInNonRootPackage);
    }
    if !isRoot && config.setsHooks {
      return Err(PrePostScriptsInNonRootPackage);
    }
    var named := LoadConfigTasks(package, config, scripts);
    if named.Err? {
      return named;
    }
    var all := LoadScripts(package, config, scripts, named.value);
    if all.Err? {
      return all;
    }
    if !config.fieldsAreConsistent {
      return Err(InconsistentCacheFields);
    }
    return all;
  }

  method LoadConfigTasks(package: nat, config: PackageConfig, scripts: map<string, bool>)
    returns (r: Result<seq<LoadedTask>, LoadError>)
    requires HaveDistinctNames(config.tasks)
    ensures r.Ok? ==> AreTasksOf(package, config, {}, r.value)
                      && forall task :: task in r.value ==> task.id.name !in scripts
    ensures r.Ok? <==> forall entry :: entry in config.tasks ==> entry.name !in scripts && entry.resolves
  {
    var tasks: seq<LoadedTask> := [];
    for i := 0 to |config.tasks|
      invariant |tasks| == i && forall k :: 0 <= k < i ==>
                  tasks[k] == LoadedTask(TaskId(package, config.tasks[k].name), TaskConfig, config.tasks[k].dependsOn)
      invariant forall k :: 0 <= k < i ==> config.tasks[k].name !in scripts && config.tasks[k].resolves
    {
      var entry := config.tasks[i];
      assert entry in config.tasks;
      if entry.name in scripts {
        return Err(ScriptConflict(entry.name));
      }
      if !entry.resolves {
        return Err(UnresolvableTask(entry.name));
      }
      tasks := tasks + [LoadedTask(TaskId(package, entry.name), TaskConfig, entry.dependsOn)];
    }
    forall entry | entry in config.tasks
      ensures LoadedTask(TaskId(package, entry.name), TaskConfig, entry.dependsOn) in tasks
    {
      var k :| 0 <= k < |config.tasks| && config.tasks[k] == entry;
      assert tasks[k] in tasks;
    }
    return Ok(tasks);
  }

  /** Adds a task for every script, in whatever order the map yields them. */
  method LoadScripts(package: nat, config: PackageConfig, scripts: map<string, bool>, named: seq<LoadedTask>)
    returns (r: Result<seq<LoadedTask>, LoadError>)
    requires AreTasksOf(package, config, {}, named)
    requires forall task :: task in named ==> task.id.name !in scripts
    ensures r.Ok? ==> AreTasksOf(package, config, scripts.Keys, r.value)
    ensures r.Ok? <==> forall name :: name in scripts ==> scripts[name]
  {
    var tasks := named;
    var remaining := scripts.Keys;
    ghost var added: set<string> := {};
    while remaining != {}
      invariant forall name :: name in scripts <==> name in added || name in remaining
      invariant AreTasksOf(package, config, added, tasks)
      invariant forall task :: task in tasks ==> task.id.name !in remaining
      invariant forall name :: name in added ==> name !in remaining && scripts[name]
      decreases |remaining|
    {
      var name :| name in remaining;
      if !scripts[name] {
        return Err(UnresolvableTask(name));
      }
      AddScript(package, config, added, tasks, name);
      tasks := tasks + [LoadedTask(TaskId(package, name), PackageJsonScript, [])];
      remaining, added := remaining - {name}, added + {name};
    }
    assert added == scripts.Keys;
    return Ok(tasks);
  }

  lemma AddScript(package: nat, config: PackageConfig, scripts: set<string>, tasks: seq<LoadedTask>, name: string)
    requires AreTasksOf(package, config, scripts, tasks)
    requires name !in scripts && forall task :: task in tasks ==> task.id.name != name
    ensures AreTasksOf(package, config, scripts + {name},
                       tasks + [LoadedTask(TaskId(package, name), PackageJsonScript, [])])
  {
    var longer := tasks + [LoadedTask(TaskId(package, name), PackageJsonScript, [])];
    forall i, j | 0 <= i < j < |longer| ensures longer[i].id != longer[j].id {
      assert j == |tasks| ==> tasks[i] in tasks;
    }
    assert longer[|tasks|] in longer;
  }

  // ---------------------------------------------------------------- dependsOn

  datatype DependencyType = Normal | Dev | Peer
  datatype DependsOn = OnTask(specifier: string) | OnPackages(task: string, types: set<DependencyType>)

  /** Packages by index; names may be shared. */
  datatype Packages = Packages(
    count: nat,
    byName: map<string, seq<nat>>,
    dependencies: nat -> seq<(nat, DependencyType)>)
  {
    ghost predicate Valid() {
      && (forall name :: name in byName ==> byName[name] != [] && forall p :: p in byName[name] ==> p < count)
      && (forall p, d :: d in dependencies(p) ==> d.0 < count)
    }
  }

  datatype Specifier = Specifier(packageName: Option<string>, taskName: string)

  /** Splits at the last `#`. */
  function ParseRaw(raw: string): Specifier {
    ParseFrom(raw, |raw|)
  }

  function ParseFrom(raw: string, i: nat): Specifier
    requires i <= |raw|
  {
    if i == 0 then Specifier(None, raw)
    else if raw[i - 1] == '#' then Specifier(Some(raw[..i - 1]), raw[i..])
    else ParseFrom(raw, i - 1)
  }

  /** `package#task` names that task of that package, for every package name and any task name without `#`. */
  lemma SpecifierRoundTrip(packageName: string, taskName: string)
    requires '#' !in taskName
    ensures ParseRaw(packageName + "#" + taskName) == Specifier(Some(packageName), taskName)
    ensures ParseRaw(taskName) == Specifier(None, taskName)
  {
    var raw := packageName + "#" + taskName;
    assert raw[|packageName|] == '#' && raw[|packageName| + 1..] == taskName && raw[..|packageName|] == packageName;
    SkipToHash(raw, |packageName|, |raw|);
    NoHash(taskName, |taskName|);
  }

  lemma {:induction false} SkipToHash(raw: string, at: nat, i: nat)
    requires at < i <= |raw| && raw[at] == '#' && '#' !in raw[at + 1..]
    ensures ParseFrom(raw, i) == Specifier(Some(raw[..at]), raw[at + 1..])
    decreases i
  {
    if i - 1 > at {
      assert raw[i - 1] == raw[at + 1..][i - 1 - (at + 1)];
      SkipToHash(raw, at, i - 1);
    }
  }

  lemma {:induction false} NoHash(raw: string, i: nat)
    requires '#' !in raw && i <= |raw|
    ensures ParseFrom(raw, i) == Specifier(None, raw)
    decreases i
  {
    if i > 0 {
      NoHash(raw, i - 1);
    }
  }

  /** The package a specifier refers to, if it is one unambiguous package. */
  function SpecifierPackage(packages: Packages, specifier: Specifier, origin: nat): Option<nat> {
    match specifier.packageName
    case None => Some(origin)
    case Some(name) =>
      if name in packages.byName && |packages.byName[name]| == 1 then Some(packages.byName[name][0]) else None
  }

  /** One look at the graph: a required task, a task taken if it exists, or a specifier that is an error. */
  datatype Probe = Required(key: TaskId) | Optional(key: TaskId) | Broken

  function Probes(packages: Packages, origin: nat, entry: DependsOn): seq<Probe> {
    match entry
    case OnTask(raw) =>
      var specifier := ParseRaw(raw);
      (match SpecifierPackage(packages, specifier, origin)
       case None => [Broken]
       case Some(package) => [Required(TaskId(package, specifier.taskName))])
    case OnPackages(task, types) => SelectedProbes(packages.dependencies(origin), task, types)
  }

  function SelectedProbes(edges: seq<(nat, DependencyType)>, task: string, types: set<DependencyType>): seq<Probe> {
    if edges == [] then []
    else
      (if edges[0].1 in types then [Optional(TaskId(edges[0].0, task))] else [])
      + SelectedProbes(edges[1..], task, types)
  }

  function AllProbes(packages: Packages, origin: nat, entries: seq<DependsOn>): seq<Probe> {
    Flattened(entries, (entry: DependsOn) => Probes(packages, origin, entry))
  }

  function Flattened<T, U>(xs: seq<T>, f: T -> seq<U>): seq<U> {
    if xs == [] then [] else f(xs[0]) + Flattened(xs[1..], f)
  }

  lemma {:induction false} FlattenedExactly<T, U>(xs: seq<T>, f: T -> seq<U>, y: U)
    ensures y in Flattened(xs, f) <==> exists x :: x in xs && y in f(x)
  {
    if xs != [] {
      FlattenedExactly(xs[1..], f, y);
      assert xs == [xs[0]] + xs[1..];
    }
  }

  lemma {:induction false} FlattenedConcat<T, U>(a: seq<T>, b: seq<T>, f: T -> seq<U>)
    ensures Flattened(a + b, f) == Flattened(a, f) + Flattened(b, f)
  {
    if a == [] {
      assert a + b == b;
    } else {
      FlattenedConcat(a[1..], b, f);
      assert (a + b)[1..] == a[1..] + b;
    }
  }

  /** Replays the replies against the probes; the next probe without a reply is the next question. */
  function Walk(probes: seq<Probe>, replies: seq<Reply>, targets: seq<TaskId>): Question {
    if probes == [] then Finish(targets)
    else match probes[0]
         case Broken => Abort
         case Required(key) =>
           if replies == [] then AskNode(key)
           else if replies[0].Found? && replies[0].node.Some? then Walk(probes[1..], replies[1..], targets + [key])
           else Abort
         case Optional(key) =>
           if replies == [] then AskNode(key)
           else if replies[0].Found? && replies[0].node.Some? then Walk(probes[1..], replies[1..], targets + [key])
           else Walk(probes[1..], replies[1..], targets)
  }

  /** The loader as the lazy graph sees it; `content` is what successful loads return. */
  ghost function AsLoader(packages: Packages, content: nat -> seq<Node>, dependsOn: TaskId -> seq<DependsOn>): Loader {
    Loader(Below(packages.count),
           (id: TaskId) => id.package,
           content,
           (id: TaskId, replies: seq<Reply>) =>
             if id.package < packages.count then Walk(AllProbes(packages, id.package, dependsOn(id)), replies, []) else Abort)
  }

  lemma {:induction false} WalkAsksInOrder(probes: seq<Probe>, replies: seq<Reply>, targets: seq<TaskId>)
    ensures !Walk(probes, replies, targets).AskNodes?
    ensures Walk(probes, replies, targets).AskNode? ==>
              |replies| < |probes| && !probes[|replies|].Broken?
              && Walk(probes, replies, targets).key == probes[|replies|].key
    decreases |probes|
  {
    if probes != [] && replies != [] {
      WalkAsksInOrder(probes[1..], replies[1..], targets);
      if !probes[0].Broken? {
        WalkAsksInOrder(probes[1..], replies[1..], targets + [probes[0].key]);
      }
    }
  }

  /** The targets are the probes that found a node, in order. */
  lemma {:induction false} WalkKeepsFound(probes: seq<Probe>, replies: seq<Reply>, targets: seq<TaskId>, key: TaskId)
    requires Walk(probes, replies, targets).Finish? && key in Walk(probes, replies, targets).keys
    ensures key in targets || exists i :: 0 <= i < |probes| && i < |replies| && !probes[i].Broken? && probes[i].key == key
                                          && replies[i].Found? && replies[i].node.Some?
    decreases |probes|
  {
    if probes != [] && replies != [] {
      var found := replies[0].Found? && replies[0].node.Some?;
      var more := if found then targets + [probes[0].key] else targets;
      WalkKeepsFound(probes[1..], replies[1..], more, key);
      if key !in more {
        var i :| 0 <= i < |probes[1..]| && i < |replies[1..]| && !probes[1..][i].Broken? && probes[1..][i].key == key
                 && replies[1..][i].Found? && replies[1..][i].node.Some?;
        assert probes[i + 1].key == key && replies[i + 1].node.Some?;
      }
    }
  }

  lemma {:induction false} SelectedProbesExactly(edges: seq<(nat, DependencyType)>, task: string, types: set<DependencyType>, probe: Probe)
    ensures probe in SelectedProbes(edges, task, types) <==>
            probe.Optional? && probe.key.name == task && exists t :: (probe.key.package, t) in edges && t in types
  {
    if edges != [] {
      SelectedProbesExactly(edges[1..], task, types, probe);
      assert edges == [edges[0]] + edges[1..];
    }
  }

  lemma AllProbesExactly(packages: Packages, origin: nat, entries: seq<DependsOn>, probe: Probe)
    ensures probe in AllProbes(packages, origin, entries) <==>
            exists entry :: entry in entries && probe in Probes(packages, origin, entry)
  {
    var f := (entry: DependsOn) => Probes(packages, origin, entry);
    FlattenedExactly(entries, f, probe);
    assert AllProbes(packages, origin, entries) == Flattened(entries, f);
  }

  lemma ProbesStayInside(packages: Packages, origin: nat, entries: seq<DependsOn>)
    requires packages.Valid() && origin < packages.count
    ensures forall probe :: probe in AllProbes(packages, origin, entries) && !probe.Broken? ==>
              probe.key.package < packages.count
  {
    forall probe | probe in AllProbes(packages, origin, entries) && !probe.Broken? ensures probe.key.package < packages.count {
      AllProbesExactly(packages, origin, entries, probe);
      var entry :| entry in entries && probe in Probes(packages, origin, entry);
      if entry.OnTask? {
        var name := ParseRaw(entry.specifier).packageName;
        assert name.Some? ==> packages.byName[name.value][0] in packages.byName[name.value];
      } else {
        SelectedProbesExactly(packages.dependencies(origin), entry.task, entry.types, probe);
        var t :| (probe.key.package, t) in packages.dependencies(origin);
      }
    }
  }

  /** On the full graph, the i-th reply is about the i-th probe. */
  lemma {:induction false} RepliesFollowProbes(loader: Loader, source: TaskId, probes: seq<Probe>, replies: seq<Reply>, i: nat)
    requires forall rs :: loader.resolve(source, rs) == Walk(probes, rs, [])
    requires AreEagerReplies(loader, source, replies) && i < |replies|
    ensures i < |probes| && !probes[i].Broken? && replies[i] == Found(EagerNode(loader, probes[i].key))
    decreases |replies|
  {
    var before := replies[..|replies| - 1];
    if i < |before| {
      RepliesFollowProbes(loader, source, probes, before, i);
      assert before[i] == replies[i];
    } else {
      WalkAsksInOrder(probes, before, []);
      assert loader.resolve(source, before) == Walk(probes, before, []);
    }
  }

  /** The nodes of a loaded package; `body` is the rest of a task. */
  function NodesOf(tasks: seq<LoadedTask>, body: LoadedTask -> nat): (nodes: seq<Node>)
    ensures |nodes| == |tasks| && forall i :: 0 <= i < |tasks| ==> nodes[i].key == tasks[i].id
  {
    seq(|tasks|, i requires 0 <= i < |tasks| => Node(tasks[i].id, body(tasks[i])))
  }

  function DependsOnOf(tasks: seq<LoadedTask>, id: TaskId): seq<DependsOn> {
    if tasks == [] then []
    else if tasks[0].id == id then tasks[0].dependsOn
    else DependsOnOf(tasks[1..], id)
  }

  function ContentOf(loaded: nat -> seq<LoadedTask>, body: LoadedTask -> nat): nat -> seq<Node> {
    (p: nat) => NodesOf(loaded(p), body)
  }

  function DependsOnIn(loaded: nat -> seq<LoadedTask>): TaskId -> seq<DependsOn> {
    (id: TaskId) => DependsOnOf(loaded(id.package), id)
  }

  /** The loader of a workspace whose packages have loaded as `loaded`. */
  ghost function LoaderOf(packages: Packages, loaded: nat -> seq<LoadedTask>, body: LoadedTask -> nat): Loader {
    AsLoader(packages, ContentOf(loaded, body), DependsOnIn(loaded))
  }

  /** With one task for an id, what the id depends on is what that task says. */
  lemma {:induction false} DependsOnOfLoaded(tasks: seq<LoadedTask>, task: LoadedTask)
    requires forall i, j :: 0 <= i < j < |tasks| ==> tasks[i].id != tasks[j].id
    requires task in tasks
    ensures DependsOnOf(tasks, task.id) == task.dependsOn
  {
    if tasks[0] != task {
      var k :| 0 <= k < |tasks| && tasks[k] == task;
      assert tasks[1..][k - 1] == task && tasks[0].id != tasks[k].id;
      DependsOnOfLoaded(tasks[1..], task);
    }
  }

  /** A configured task depends on what its entry lists, a script on nothing. */
  lemma DependsOnAsConfigured(package: nat, config: PackageConfig, scripts: set<string>, tasks: seq<LoadedTask>, name: string)
    requires AreTasksOf(package, config, scripts, tasks)
    ensures forall entry :: entry in config.tasks && entry.name == name ==> DependsOnOf(tasks, TaskId(package, name)) == entry.dependsOn
    ensures name in scripts ==> DependsOnOf(tasks, TaskId(package, name)) == []
  {
    forall entry | entry in config.tasks && entry.name == name
      ensures DependsOnOf(tasks, TaskId(package, name)) == entry.dependsOn
    {
      DependsOnOfLoaded(tasks, LoadedTask(TaskId(package, name), TaskConfig, entry.dependsOn));
    }
    if name in scripts {
      DependsOnOfLoaded(tasks, LoadedTask(TaskId(package, name), PackageJsonScript, []));
    }
  }

  /** What `Load` returns for the packages makes a loader that keeps every promise to the graph. */
  lemma TaskLoaderMeetsContract(packages: Packages, configs: nat -> PackageConfig, scripts: nat -> set<string>,
                                loaded: nat -> seq<LoadedTask>, body: LoadedTask -> nat)
    requires packages.Valid()
    requires forall p: nat :: p < packages.count ==> AreTasksOf(p, configs(p), scripts(p), loaded(p))
    ensures MeetsContract(LoaderOf(packages, loaded, body))
  {
    forall p: nat | p < packages.count
      ensures HasOwnDistinctKeys(NodesOf(loaded(p), body), p)
    {
      assert AreTasksOf(p, configs(p), scripts(p), loaded(p));
      var nodes := NodesOf(loaded(p), body);
      forall node | node in nodes ensures node.key.package == p {
        var i :| 0 <= i < |nodes| && nodes[i] == node;
        assert loaded(p)[i] in loaded(p);
      }
    }
    ContentMeetsContract(packages, ContentOf(loaded, body), DependsOnIn(loaded));
  }

  ghost predicate HasOwnDistinctKeys(nodes: seq<Node>, p: nat) {
    && (forall node :: node in nodes ==> node.key.package == p)
    && (forall i, j :: 0 <= i < j < |nodes| ==> nodes[i].key != nodes[j].key)
  }

  lemma ContentMeetsContract(packages: Packages, content: nat -> seq<Node>, dependsOn: TaskId -> seq<DependsOn>)
    requires packages.Valid()
    requires forall p: nat :: p < packages.count ==> HasOwnDistinctKeys(content(p), p)
    ensures MeetsContract(AsLoader(packages, content, dependsOn))
  {
    var loader := AsLoader(packages, content, dependsOn);
    forall p | p in loader.partitions ensures LoadsProperly(loader, p) {
      assert loader.content(p) == content(p);
    }
    forall source: TaskId, replies: seq<Reply> ensures AsksProperly(loader, loader.resolve(source, replies)) {
      AsksInside(packages, content, dependsOn, source, replies);
    }
    forall source: TaskId, keys: seq<TaskId>, key: TaskId | ResolvesTo(loader, source, keys) && key in keys
      ensures loader.partitionOf(key) in loader.partitions && EagerNode(loader, key).Some?
    {
      ResolvedKeysExist(packages, content, dependsOn, source, keys, key);
    }
  }

  lemma AsksInside(packages: Packages, content: nat -> seq<Node>, dependsOn: TaskId -> seq<DependsOn>,
                   source: TaskId, replies: seq<Reply>)
    requires packages.Valid()
    ensures var loader := AsLoader(packages, content, dependsOn);
            AsksProperly(loader, loader.resolve(source, replies))
  {
    if source.package < packages.count {
      var probes := AllProbes(packages, source.package, dependsOn(source));
      ProbesStayInside(packages, source.package, dependsOn(source));
      WalkAsksInOrder(probes, replies, []);
      if Walk(probes, replies, []).AskNode? {
        assert probes[|replies|] in probes;
      }
    }
  }

  lemma ResolvedKeysExist(packages: Packages, content: nat -> seq<Node>, dependsOn: TaskId -> seq<DependsOn>,
                          source: TaskId, keys: seq<TaskId>, key: TaskId)
    requires packages.Valid()
    requires ResolvesTo(AsLoader(packages, content, dependsOn), source, keys) && key in keys
    ensures key.package < packages.count && EagerNode(AsLoader(packages, content, dependsOn), key).Some?
  {
    var loader := AsLoader(packages, content, dependsOn);
    var replies: seq<Reply> :| AreEagerReplies(loader, source, replies) && loader.resolve(source, replies) == Finish(keys);
    var probes := AllProbes(packages, source.package, dependsOn(source));
    WalkKeepsFound(probes, replies, [], key);
    var i :| 0 <= i < |probes| && i < |replies| && !probes[i].Broken? && probes[i].key == key
             && replies[i].Found? && replies[i].node.Some?;
    RepliesFollowProbes(loader, source, probes, replies, i);
    ProbesStayInside(packages, source.package, dependsOn(source));
    assert probes[i] in probes;
  }

  // ---------------------------------------------------------------- what dependsOn selects

  /** `raw` names the task `key`: alone in the package it is written in, or with the one package of that name in front. */
  ghost predicate NamesTask(packages: Packages, origin: nat, raw: string, key: TaskId) {
    || ('#' !in raw && key == TaskId(origin, raw))
    || (exists name :: raw == name + "#" + key.name && '#' !in key.name
                       && name in packages.byName && packages.byName[name] == [key.package])
  }

  ghost predicate IsLoaded(loaded: nat -> seq<LoadedTask>, key: TaskId) {
    exists task :: task in loaded(key.package) && task.id == key
  }

  /** The package of `key` is a direct dependency of one of these types, and has the task. */
  ghost predicate IsDependencyTask(packages: Packages, loaded: nat -> seq<LoadedTask>, origin: nat,
                                   task: string, types: set<DependencyType>, key: TaskId)
  {
    key.name == task && (exists t :: (key.package, t) in packages.dependencies(origin) && t in types) && IsLoaded(loaded, key)
  }

  ghost predicate Selects(packages: Packages, loaded: nat -> seq<LoadedTask>, origin: nat, entry: DependsOn, key: TaskId) {
    match entry
    case OnTask(raw) => NamesTask(packages, origin, raw, key)
    case OnPackages(task, types) => IsDependencyTask(packages, loaded, origin, task, types, key)
  }

  ghost predicate IsSelectedBy(packages: Packages, loaded: nat -> seq<LoadedTask>, origin: nat, entries: seq<DependsOn>, key: TaskId) {
    exists entry :: entry in entries && Selects(packages, loaded, origin, entry, key)
  }

  /** The entry names a task that exists; the other kind of entry never fails. */
  ghost predicate IsFulfilled(packages: Packages, loaded: nat -> seq<LoadedTask>, origin: nat, entry: DependsOn) {
    entry.OnTask? ==> exists key :: NamesTask(packages, origin, entry.specifier, key) && IsLoaded(loaded, key)
  }

  ghost predicate AreFulfilled(packages: Packages, loaded: nat -> seq<LoadedTask>, origin: nat, entries: seq<DependsOn>) {
    forall entry :: entry in entries ==> IsFulfilled(packages, loaded, origin, entry)
  }

  /** Every string is a name without `#`, or splits at its last one. */
  lemma {:induction false} SplitsAtLastHash(raw: string) returns (name: string, task: string)
    ensures '#' !in task
    ensures if '#' in raw then raw == name + "#" + task else task == raw
  {
    if raw == "" || raw[|raw| - 1] == '#' {
      name, task := if raw == "" then "" else raw[..|raw| - 1], "";
      assert raw != "" ==> raw == name + "#" + task;
    } else {
      var init, last := raw[..|raw| - 1], raw[|raw| - 1];
      var shorter;
      name, shorter := SplitsAtLastHash(init);
      task := shorter + [last];
      assert raw == init + [last];
      assert '#' in raw <==> '#' in init;
      assert '#' in init ==> raw == name + "#" + task;
    }
  }

  /** Parsing finds what a specifier names, if it names anything. */
  lemma ParseFindsNamed(packages: Packages, origin: nat, raw: string, key: TaskId)
    ensures NamesTask(packages, origin, raw, key) <==>
            SpecifierPackage(packages, ParseRaw(raw), origin) == Some(key.package) && ParseRaw(raw).taskName == key.name
  {
    var name, task := SplitsAtLastHash(raw);
    SpecifierRoundTrip(name, task);
    if '#' in raw {
      assert raw == name + "#" + task && ParseRaw(raw) == Specifier(Some(name), task);
      forall other | raw == other + "#" + key.name && '#' !in key.name ensures other == name && key.name == task {
        SpecifierRoundTrip(other, key.name);
      }
      if SpecifierPackage(packages, ParseRaw(raw), origin) == Some(key.package) && task == key.name {
        assert packages.byName[name] == [key.package];
        assert raw == name + "#" + key.name && '#' !in key.name;
      }
    } else {
      assert ParseRaw(raw) == Specifier(None, raw);
      forall other: string ensures raw != other + "#" + key.name {
        assert (other + "#" + key.name)[|other|] == '#';
      }
    }
  }

  /** What a specifier names is unique. */
  lemma NamesOneTask(packages: Packages, origin: nat, raw: string, one: TaskId, two: TaskId)
    requires NamesTask(packages, origin, raw, one) && NamesTask(packages, origin, raw, two)
    ensures one == two
  {
    ParseFindsNamed(packages, origin, raw, one);
    ParseFindsNamed(packages, origin, raw, two);
  }

  /** The probes of an entry are for what it may select. */
  lemma ProbesExactly(packages: Packages, origin: nat, entry: DependsOn, probe: Probe)
    ensures probe in Probes(packages, origin, entry) <==>
            match probe
            case Required(key) => entry.OnTask? && NamesTask(packages, origin, entry.specifier, key)
            case Optional(key) =>
              entry.OnPackages? && key.name == entry.task
              && exists t :: (key.package, t) in packages.dependencies(origin) && t in entry.types
            case Broken => entry.OnTask? && forall key :: !NamesTask(packages, origin, entry.specifier, key)
  {
    match entry
    case OnTask(raw) =>
      forall key ensures NamesTask(packages, origin, raw, key) <==>
                         SpecifierPackage(packages, ParseRaw(raw), origin) == Some(key.package) && ParseRaw(raw).taskName == key.name
      {
        ParseFindsNamed(packages, origin, raw, key);
      }
      var package := SpecifierPackage(packages, ParseRaw(raw), origin);
      if package.Some? {
        assert NamesTask(packages, origin, raw, TaskId(package.value, ParseRaw(raw).taskName));
      }
    case OnPackages(task, types) =>
      SelectedProbesExactly(packages.dependencies(origin), task, types, probe);
  }

  /** The keys of the probes that find a node. */
  function Kept(loader: Loader, probes: seq<Probe>): seq<TaskId> {
    if probes == [] then []
    else (if !probes[0].Broken? && EagerNode(loader, probes[0].key).Some? then [probes[0].key] else []) + Kept(loader, probes[1..])
  }

  lemma {:induction false} KeptOfConcat(loader: Loader, a: seq<Probe>, b: seq<Probe>)
    ensures Kept(loader, a + b) == Kept(loader, a) + Kept(loader, b)
  {
    if a == [] {
      assert a + b == b;
    } else {
      KeptOfConcat(loader, a[1..], b);
      assert (a + b)[1..] == a[1..] + b;
    }
  }

  lemma {:induction false} KeptExactly(loader: Loader, probes: seq<Probe>, key: TaskId)
    ensures key in Kept(loader, probes) <==>
            EagerNode(loader, key).Some? && exists probe :: probe in probes && !probe.Broken? && probe.key == key
  {
    if probes != [] {
      KeptExactly(loader, probes[1..], key);
      assert probes == [probes[0]] + probes[1..];
    }
  }

  /** No probe stops the walk. */
  predicate PassesWell(loader: Loader, probes: seq<Probe>) {
    forall probe :: probe in probes ==> !probe.Broken? && (probe.Required? ==> EagerNode(loader, probe.key).Some?)
  }

  ghost predicate Answer(loader: Loader, probes: seq<Probe>, replies: seq<Reply>) {
    |replies| <= |probes| && forall i :: 0 <= i < |replies| ==> !probes[i].Broken? && replies[i] == Found(EagerNode(loader, probes[i].key))
  }

  /** Answered from the full graph, the walk ends exactly after the last probe, with the probes that found something. */
  lemma {:induction false} WalkOnFullGraph(loader: Loader, probes: seq<Probe>, replies: seq<Reply>, targets: seq<TaskId>)
    requires Answer(loader, probes, replies)
    ensures Walk(probes, replies, targets).Finish? <==> |replies| == |probes| && PassesWell(loader, probes)
    ensures Walk(probes, replies, targets).Finish? ==> Walk(probes, replies, targets).keys == targets + Kept(loader, probes)
    ensures |replies| < |probes| && PassesWell(loader, probes) ==> Walk(probes, replies, targets) == AskNode(probes[|replies|].key)
    decreases |probes|
  {
    if probes != [] {
      assert probes == [probes[0]] + probes[1..];
      if replies != [] {
        var found := EagerNode(loader, probes[0].key).Some?;
        assert replies[0] == Found(EagerNode(loader, probes[0].key));
        assert Answer(loader, probes[1..], replies[1..]);
        WalkOnFullGraph(loader, probes[1..], replies[1..], if found then targets + [probes[0].key] else targets);
      }
    }
  }

  /** The full graph's answers to the first `n` probes. */
  function AnswersTo(loader: Loader, probes: seq<Probe>, n: nat): (replies: seq<Reply>)
    requires n <= |probes| && forall probe :: probe in probes ==> !probe.Broken?
    ensures |replies| == n && forall i :: 0 <= i < n ==> replies[i] == Found(EagerNode(loader, probes[i].key))
  {
    seq(n, i requires 0 <= i < n => assert probes[i] in probes; Found(EagerNode(loader, probes[i].key)))
  }

  lemma {:induction false} AnswersAreEager(loader: Loader, source: TaskId, probes: seq<Probe>, n: nat)
    requires forall rs :: loader.resolve(source, rs) == Walk(probes, rs, [])
    requires PassesWell(loader, probes) && n <= |probes|
    ensures AreEagerReplies(loader, source, AnswersTo(loader, probes, n))
  {
    if n > 0 {
      var before := AnswersTo(loader, probes, n - 1);
      AnswersAreEager(loader, source, probes, n - 1);
      assert AnswersTo(loader, probes, n)[..n - 1] == before;
      forall i | 0 <= i < |before| ensures !probes[i].Broken? {
        assert probes[i] in probes;
      }
      WalkOnFullGraph(loader, probes, before, []);
      assert loader.resolve(source, before) == AskNode(probes[n - 1].key);
    }
  }

  /** A resolution exists exactly if no probe stops it, and is then what the probes find, in their order. */
  lemma ResolvesToKept(loader: Loader, source: TaskId, probes: seq<Probe>, keys: seq<TaskId>)
    requires forall rs :: loader.resolve(source, rs) == Walk(probes, rs, [])
    ensures ResolvesTo(loader, source, keys) <==> PassesWell(loader, probes) && keys == Kept(loader, probes)
  {
    if ResolvesTo(loader, source, keys) {
      var replies :| AreEagerReplies(loader, source, replies) && loader.resolve(source, replies) == Finish(keys);
      forall i: nat | i < |replies|
        ensures i < |probes| && !probes[i].Broken? && replies[i] == Found(EagerNode(loader, probes[i].key))
      {
        RepliesFollowProbes(loader, source, probes, replies, i);
      }
      assert replies == [] || |replies| - 1 < |probes|;
      WalkOnFullGraph(loader, probes, replies, []);
    }
    if PassesWell(loader, probes) && keys == Kept(loader, probes) {
      AnswersAreEager(loader, source, probes, |probes|);
      var replies := AnswersTo(loader, probes, |probes|);
      forall i | 0 <= i < |replies| ensures !probes[i].Broken? {
        assert probes[i] in probes;
      }
      WalkOnFullGraph(loader, probes, replies, []);
      assert loader.resolve(source, replies) == Finish(keys);
    }
  }

  lemma LoadedHasNode(packages: Packages, loaded: nat -> seq<LoadedTask>, body: LoadedTask -> nat, key: TaskId)
    ensures EagerNode(LoaderOf(packages, loaded, body), key).Some? <==> IsLoaded(loaded, key)
  {
    var nodes := NodesOf(loaded(key.package), body);
    assert LoaderOf(packages, loaded, body).content(key.package) == nodes;
    if task :| task in loaded(key.package) && task.id == key {
      var i :| 0 <= i < |loaded(key.package)| && loaded(key.package)[i] == task;
      assert nodes[i] in nodes && nodes[i].key == key;
    }
    if EagerNode(LoaderOf(packages, loaded, body), key).Some? {
      var node := EagerNode(LoaderOf(packages, loaded, body), key).value;
      var i :| 0 <= i < |nodes| && nodes[i] == node;
      assert loaded(key.package)[i].id == key;
    }
  }

  /**
   * The edges of a task are exactly what its `dependsOn` entries select: the tasks named, and the task
   * in each direct dependency of the right type that has it. They resolve exactly if every named task
   * exists, and a list of entries resolves to what its parts resolve to, one after the other.
   */
  lemma EdgesAreWhatEntriesSelect(packages: Packages, loaded: nat -> seq<LoadedTask>, body: LoadedTask -> nat, source: TaskId)
    requires source.package < packages.count
    ensures var loader, entries := LoaderOf(packages, loaded, body), DependsOnOf(loaded(source.package), source);
            && ((exists keys :: ResolvesTo(loader, source, keys)) <==> AreFulfilled(packages, loaded, source.package, entries))
            && forall keys, key :: ResolvesTo(loader, source, keys) ==>
                 (key in keys <==> IsSelectedBy(packages, loaded, source.package, entries, key))
  {
    var loader, entries := LoaderOf(packages, loaded, body), DependsOnOf(loaded(source.package), source);
    var probes := AllProbes(packages, source.package, entries);
    forall rs ensures loader.resolve(source, rs) == Walk(probes, rs, []) {
    }
    forall keys ensures ResolvesTo(loader, source, keys) <==> PassesWell(loader, probes) && keys == Kept(loader, probes) {
      ResolvesToKept(loader, source, probes, keys);
    }
    PassesIfFulfilled(packages, loaded, body, source.package, entries);
    if PassesWell(loader, probes) {
      assert ResolvesTo(loader, source, Kept(loader, probes));
      forall key ensures key in Kept(loader, probes) <==> IsSelectedBy(packages, loaded, source.package, entries, key) {
        KeptIsSelected(packages, loaded, body, source.package, entries, key);
      }
    }
  }

  lemma PassesIfFulfilled(packages: Packages, loaded: nat -> seq<LoadedTask>, body: LoadedTask -> nat, origin: nat, entries: seq<DependsOn>)
    ensures PassesWell(LoaderOf(packages, loaded, body), AllProbes(packages, origin, entries))
            <==> AreFulfilled(packages, loaded, origin, entries)
  {
    var loader, probes := LoaderOf(packages, loaded, body), AllProbes(packages, origin, entries);
    if AreFulfilled(packages, loaded, origin, entries) {
      forall probe | probe in probes
        ensures !probe.Broken? && (probe.Required? ==> EagerNode(loader, probe.key).Some?)
      {
        AllProbesExactly(packages, origin, entries, probe);
        var entry :| entry in entries && probe in Probes(packages, origin, entry);
        ProbesExactly(packages, origin, entry, probe);
        assert IsFulfilled(packages, loaded, origin, entry);
        if probe.Required? {
          var key :| NamesTask(packages, origin, entry.specifier, key) && IsLoaded(loaded, key);
          NamesOneTask(packages, origin, entry.specifier, key, probe.key);
          LoadedHasNode(packages, loaded, body, key);
        }
      }
    }
    if PassesWell(loader, probes) {
      forall entry | entry in entries && entry.OnTask?
        ensures exists key :: NamesTask(packages, origin, entry.specifier, key) && IsLoaded(loaded, key)
      {
        ProbesExactly(packages, origin, entry, Broken);
        AllProbesExactly(packages, origin, entries, Broken);
        var key :| NamesTask(packages, origin, entry.specifier, key);
        ProbesExactly(packages, origin, entry, Required(key));
        AllProbesExactly(packages, origin, entries, Required(key));
        LoadedHasNode(packages, loaded, body, key);
      }
    }
  }

  lemma KeptIsSelected(packages: Packages, loaded: nat -> seq<LoadedTask>, body: LoadedTask -> nat, origin: nat,
                       entries: seq<DependsOn>, key: TaskId)
    requires AreFulfilled(packages, loaded, origin, entries)
    ensures key in Kept(LoaderOf(packages, loaded, body), AllProbes(packages, origin, entries))
            <==> IsSelectedBy(packages, loaded, origin, entries, key)
  {
    var loader, probes := LoaderOf(packages, loaded, body), AllProbes(packages, origin, entries);
    KeptExactly(loader, probes, key);
    LoadedHasNode(packages, loaded, body, key);
    AllProbesExactly(packages, origin, entries, Required(key));
    AllProbesExactly(packages, origin, entries, Optional(key));
    forall entry
      ensures Required(key) in Probes(packages, origin, entry) <==> entry.OnTask? && NamesTask(packages, origin, entry.specifier, key)
      ensures Optional(key) in Probes(packages, origin, entry) <==>
              entry.OnPackages? && key.name == entry.task
              && exists t :: (key.package, t) in packages.dependencies(origin) && t in entry.types
    {
      ProbesExactly(packages, origin, entry, Required(key));
      ProbesExactly(packages, origin, entry, Optional(key));
    }
    if IsSelectedBy(packages, loaded, origin, entries, key) {
      var entry :| entry in entries && Selects(packages, loaded, origin, entry, key);
      if entry.OnTask? {
        assert IsFulfilled(packages, loaded, origin, entry);
        var named :| NamesTask(packages, origin, entry.specifier, named) && IsLoaded(loaded, named);
        NamesOneTask(packages, origin, entry.specifier, key, named);
      }
    }
  }

  /** Resolving `dependsOn` asks at most once for each task it may select, so no call on the graph waits for ever. */
  lemma TaskLoaderSettles(packages: Packages, loaded: nat -> seq<LoadedTask>, body: LoadedTask -> nat, goal: Goal)
    requires goal.ListNeighbors? ==> goal.key.package < packages.count
    ensures Settles(LoaderOf(packages, loaded, body), goal)
  {
    if goal.ListNeighbors? {
      var loader, source := LoaderOf(packages, loaded, body), goal.key;
      var probes := AllProbes(packages, source.package, DependsOnOf(loaded(source.package), source));
      var all := AsksToTheEnd(loader, source, probes, []);
      assert Ends(loader, source, all);
    }
  }

  lemma {:induction false} AsksToTheEnd(loader: Loader, source: TaskId, probes: seq<Probe>, replies: seq<Reply>) returns (all: seq<Reply>)
    requires forall rs :: loader.resolve(source, rs) == Walk(probes, rs, [])
    requires AreEagerReplies(loader, source, replies) && |replies| <= |probes|
    ensures Ends(loader, source, all) && |all| <= |probes|
    decreases |probes| - |replies|
  {
    WalkAsksInOrder(probes, replies, []);
    var question := loader.resolve(source, replies);
    if question.AskNode? {
      var more := replies + [Found(EagerNode(loader, question.key))];
      assert more[..|more| - 1] == replies;
      all := AsksToTheEnd(loader, source, probes, more);
    } else {
      all := replies;
    }
  }

  /** What the first entries select comes before what the others select. */
  lemma EntriesResolveInOrder(packages: Packages, loaded: nat -> seq<LoadedTask>, body: LoadedTask -> nat, source: TaskId,
                              a: seq<DependsOn>, b: seq<DependsOn>, keys: seq<TaskId>) returns (n: nat)
    requires source.package < packages.count && DependsOnOf(loaded(source.package), source) == a + b
    requires ResolvesTo(LoaderOf(packages, loaded, body), source, keys)
    ensures n <= |keys|
    ensures forall key :: key in keys[..n] <==> IsSelectedBy(packages, loaded, source.package, a, key)
    ensures forall key :: key in keys[n..] <==> IsSelectedBy(packages, loaded, source.package, b, key)
  {
    var loader, origin := LoaderOf(packages, loaded, body), source.package;
    var probes := AllProbes(packages, origin, a + b);
    forall rs ensures loader.resolve(source, rs) == Walk(probes, rs, []) {
    }
    ResolvesToKept(loader, source, probes, keys);
    PassesIfFulfilled(packages, loaded, body, origin, a + b);
    FlattenedConcat(a, b, (entry: DependsOn) => Probes(packages, origin, entry));
    KeptOfConcat(loader, AllProbes(packages, origin, a), AllProbes(packages, origin, b));
    n := |Kept(loader, AllProbes(packages, origin, a))|;
    forall entry | entry in a || entry in b ensures IsFulfilled(packages, loaded, origin, entry) {
      assert entry in a + b;
    }
    forall key
      ensures key in keys[..n] <==> IsSelectedBy(packages, loaded, origin, a, key)
      ensures key in keys[n..] <==> IsSelectedBy(packages, loaded, origin, b, key)
    {
      KeptIsSelected(packages, loaded, body, origin, a, key);
      KeptIsSelected(packages, loaded, body, origin, b, key);
    }
  }
}
