/** Workspace membership, decided from a package's path and by walking the globs. */
module Workspace {
  import opened Wrappers
  import RelativePath

  /** The foreign glob language: which strings are globs, and which paths they match. */
  datatype Globs = Globs(isGlob: string -> bool, matches: (string, string) -> bool)

  // ---------------------------------------------------------------- ordered glob sets

  /** A glob and whether it lets paths in. */
  type Rule = (string, bool)

  function ParsedRule(pattern: string): Rule {
    if pattern != "" && pattern[0] == '!' then (pattern[1..], false) else (pattern, true)
  }

  /** A pattern lets in what it matches, or keeps out what it matches behind its exclamation mark. */
  lemma BangKeepsOut(pattern: string)
    ensures ParsedRule("!" + pattern) == (pattern, false)
    ensures !("!" <= pattern) ==> ParsedRule(pattern) == (pattern, true)
  {
    assert ("!" + pattern)[1..] == pattern;
    assert pattern != "" && pattern[0] == '!' ==> "!" <= pattern;
  }

  function ParsedRules(patterns: seq<string>): (rules: seq<Rule>)
    ensures |rules| == |patterns| && forall i :: 0 <= i < |patterns| ==> rules[i] == ParsedRule(patterns[i])
  {
    seq(|patterns|, i requires 0 <= i < |patterns| => ParsedRule(patterns[i]))
  }

  datatype GlobSet = GlobSet(rules: seq<Rule>, hasNegated: bool) {
    predicate Valid() {
      hasNegated <==> exists i :: 0 <= i < |rules| && !rules[i].1
    }
  }

  predicate AreGlobs(g: Globs, patterns: seq<string>) {
    forall i :: 0 <= i < |patterns| ==> g.isGlob(ParsedRule(patterns[i]).0)
  }

  method NewGlobSet(g: Globs, patterns: seq<string>) returns (r: Option<GlobSet>)
    ensures r.Some? <==> AreGlobs(g, patterns)
    ensures r.Some? ==> r.value.rules == ParsedRules(patterns) && r.value.Valid()
  {
    var rules := [];
    var hasNegated := false;
    for n := 0 to |patterns|
      invariant rules == ParsedRules(patterns[..n]) && AreGlobs(g, patterns[..n])
      invariant GlobSet(rules, hasNegated).Valid()
    {
      var rule := ParsedRule(patterns[n]);
      if !g.isGlob(rule.0) {
        return None;
      }
      rules := rules + [rule];
      hasNegated := hasNegated || !rule.1;
    }
    assert patterns[..|patterns|] == patterns;
    r := Some(GlobSet(rules, hasNegated));
  }

  /** What the last matching rule says; nothing matching means no. */
  function LastSays(g: Globs, rules: seq<Rule>, path: string): bool {
    if rules == [] then false
    else if g.matches(rules[|rules| - 1].0, path) then rules[|rules| - 1].1
    else LastSays(g, rules[..|rules| - 1], path)
  }

  ghost predicate Matches(g: Globs, rules: seq<Rule>, path: string, i: nat) {
    i < |rules| && g.matches(rules[i].0, path)
  }

  /** A rule that lets the path in and that no later matching rule contradicts. */
  ghost predicate Decides(g: Globs, rules: seq<Rule>, path: string, i: nat) {
    Matches(g, rules, path, i) && forall j :: i < j < |rules| ==> !Matches(g, rules, path, j)
  }

  ghost predicate LetsIn(g: Globs, rules: seq<Rule>, path: string) {
    exists i: nat :: Decides(g, rules, path, i) && rules[i].1
  }

  ghost predicate AnyMatches(g: Globs, rules: seq<Rule>, path: string) {
    exists i: nat :: Matches(g, rules, path, i)
  }

  /** The answer is the polarity of the last rule that matches; if none is negated, whether any does. */
  lemma {:induction false} LastRuleDecides(g: Globs, rules: seq<Rule>, path: string)
    ensures LastSays(g, rules, path) <==> LetsIn(g, rules, path)
    ensures (forall i :: 0 <= i < |rules| ==> rules[i].1) ==> (LastSays(g, rules, path) <==> AnyMatches(g, rules, path))
  {
    if rules != [] {
      var last := |rules| - 1;
      var init := rules[..last];
      LastRuleDecides(g, init, path);
      if Matches(g, rules, path, last) {
        assert Decides(g, rules, path, last);
        assert forall i: nat :: Decides(g, rules, path, i) ==> i == last;
      } else {
        EarlierRulesDecide(g, rules, path);
      }
    }
  }

  lemma EarlierRulesDecide(g: Globs, rules: seq<Rule>, path: string)
    requires rules != [] && !Matches(g, rules, path, |rules| - 1)
    ensures LetsIn(g, rules[..|rules| - 1], path) <==> LetsIn(g, rules, path)
    ensures AnyMatches(g, rules[..|rules| - 1], path) <==> AnyMatches(g, rules, path)
  {
    var init := rules[..|rules| - 1];
    assert forall i: nat :: Matches(g, init, path, i) <==> Matches(g, rules, path, i);
    assert forall i: nat :: Decides(g, init, path, i) <==> Decides(g, rules, path, i);
  }

  /** Stops at the first match if no rule is negated; the answer is the last matching rule's either way. */
  method IsMatch(g: Globs, s: GlobSet, path: string) returns (shouldMatch: bool)
    requires s.Valid()
    ensures shouldMatch == LastSays(g, s.rules, path)
  {
    shouldMatch := false;
    for n := 0 to |s.rules|
      invariant shouldMatch == LastSays(g, s.rules[..n], path)
      invariant !s.hasNegated ==> !shouldMatch
    {
      assert s.rules[..n + 1][..n] == s.rules[..n];
      if g.matches(s.rules[n].0, path) {
        shouldMatch := s.rules[n].1;
        if !s.hasNegated {
          LastRuleDecides(g, s.rules, path);
          assert Matches(g, s.rules, path, n);
          return;
        }
      }
    }
    assert s.rules[..|s.rules|] == s.rules;
  }

  // ---------------------------------------------------------------- member patterns

  function LeadingBangs(s: string): (n: nat)
    ensures n <= |s| && (forall i :: 0 <= i < n ==> s[i] == '!') && (n < |s| ==> s[n] != '!')
  {
    if s == "" || s[0] != '!' then 0 else 1 + LeadingBangs(s[1..])
  }

  function TrimSlashes(s: string): (t: string)
    ensures t == "" || t[0] != '/'
  {
    if s == "" || s[0] != '/' then s else TrimSlashes(s[1..])
  }

  /** Drops `/` or `./` in front, and any further slashes. */
  function RootRelative(path: string): string {
    var rest := if path != "" && path[0] == '.' then path[1..] else path;
    if rest != "" && rest[0] == '/' then TrimSlashes(rest) else path
  }

  /** A glob of `package.json` files; negated ones begin with an exclamation mark. */
  datatype Pattern = Pattern(text: string, negated: bool)

  ghost predicate IsPattern(p: Pattern) {
    p.text != "" && (p.negated ==> p.text[0] == '!')
  }

  function PackageJsonFile(path: string): string {
    path + if path == "" || path[|path| - 1] == '/' then "package.json" else "/package.json"
  }

  /** Every leading exclamation mark flips the pattern. */
  function PackageJsonPattern(member: string): (p: Pattern)
    ensures IsPattern(p)
  {
    Excluded(LeadingBangs(member), PackageJsonFile(RootRelative(member[LeadingBangs(member)..])))
  }

  function Excluded(exclusions: nat, file: string): Pattern {
    if exclusions % 2 == 1 then Pattern("!" + file, true) else Pattern(file, false)
  }

  function PackageJsonPatterns(members: seq<string>): (patterns: seq<Pattern>)
    ensures ArePatterns(patterns)
  {
    seq(|members|, i requires 0 <= i < |members| => PackageJsonPattern(members[i]))
  }

  ghost predicate ArePatterns(patterns: seq<Pattern>) {
    forall i :: 0 <= i < |patterns| ==> IsPattern(patterns[i])
  }

  /** A root prefix does not count, however many slashes it has. */
  lemma RootPrefixIsDropped(path: string)
    requires path == "" || path[0] != '/'
    ensures RootRelative("/" + path) == path && RootRelative("//" + path) == path && RootRelative("./" + path) == path
  {
    assert ("/" + path)[1..] == path && ("./" + path)[1..] == "/" + path && ("//" + path)[1..] == "/" + path;
    assert TrimSlashes(path) == path && TrimSlashes("/" + path) == path;
  }

  function Slashes(n: nat): (s: string)
    ensures |s| == n
  {
    seq(n, _ => '/')
  }

  lemma {:induction false} SlashesAreTrimmed(n: nat, path: string)
    requires path == "" || path[0] != '/'
    ensures TrimSlashes(Slashes(n) + path) == path
  {
    if n > 0 {
      assert (Slashes(n) + path)[1..] == Slashes(n - 1) + path;
      SlashesAreTrimmed(n - 1, path);
    } else {
      assert Slashes(0) + path == path;
    }
  }

  /** Slashes in front do not count, with a dot before them or not; a path without them stays, dot or not. */
  lemma OnlyRootPrefixesAreDropped(n: nat, path: string)
    requires path == "" || path[0] != '/'
    ensures n > 0 ==> RootRelative(Slashes(n) + path) == path && RootRelative("." + Slashes(n) + path) == path
    ensures !("./" <= path) ==> RootRelative(path) == path
  {
    SlashesAreTrimmed(n, path);
    assert ("." + Slashes(n) + path)[1..] == Slashes(n) + path;
    assert "." + Slashes(n) + path == "." + (Slashes(n) + path);
  }

  /** Any other member stands for the `package.json` right below what it matches. */
  lemma PlainMember(member: string)
    requires member != "" && member[0] != '!' && member[0] != '/' && !("./" <= member)
    ensures PackageJsonPattern(member) ==
            Pattern(member + if member[|member| - 1] == '/' then "package.json" else "/package.json", false)
  {
    OnlyRootPrefixesAreDropped(0, member);
    assert LeadingBangs(member) == 0 && member[0..] == member;
  }

  /** What names the root stands for its `package.json`. */
  lemma RootMember(member: string)
    requires member in {"", "/", "./"}
    ensures PackageJsonPattern(member) == Pattern("package.json", false)
  {
    RootNames();
    RootFile();
    UnnegatedPattern(member);
  }

  lemma RootNames()
    ensures RootRelative("") == "" && RootRelative("/") == "" && RootRelative("./") == ""
  {
    RootPrefixIsDropped("");
    assert "/" + "" == "/" && "./" + "" == "./";
  }

  lemma RootFile()
    ensures PackageJsonFile("") == "package.json"
  {
    assert "" + "package.json" == "package.json";
  }

  lemma UnnegatedPattern(member: string)
    requires member == "" || member[0] != '!'
    ensures PackageJsonPattern(member) == Pattern(PackageJsonFile(RootRelative(member)), false)
  {
    assert member[0..] == member && LeadingBangs(member) == 0;
  }

  lemma OneMoreBang(member: string)
    ensures LeadingBangs("!" + member) == LeadingBangs(member) + 1
    ensures ("!" + member)[LeadingBangs(member) + 1..] == member[LeadingBangs(member)..]
  {
    assert ("!" + member)[1..] == member;
  }

  /** One more exclamation mark flips a pattern, and nothing else. */
  lemma BangFlips(member: string)
    ensures PackageJsonPattern("!" + member) ==
            if PackageJsonPattern(member).negated then Pattern(PackageJsonPattern(member).text[1..], false)
            else Pattern("!" + PackageJsonPattern(member).text, true)
  {
    OneMoreBang(member);
    OneMoreExclusion(LeadingBangs(member), PackageJsonFile(RootRelative(member[LeadingBangs(member)..])));
  }

  lemma OneMoreExclusion(n: nat, file: string)
    ensures Excluded(n + 1, file) ==
            if Excluded(n, file).negated then Pattern(Excluded(n, file).text[1..], false)
            else Pattern("!" + Excluded(n, file).text, true)
  {
    assert ("!" + file)[1..] == file;
  }

  predicate HasNegated(patterns: seq<Pattern>) {
    exists i :: 0 <= i < |patterns| && patterns[i].negated
  }

  function Texts(patterns: seq<Pattern>): (texts: seq<string>)
    ensures |texts| == |patterns| && forall i :: 0 <= i < |patterns| ==> texts[i] == patterns[i].text
  {
    seq(|patterns|, i requires 0 <= i < |patterns| => patterns[i].text)
  }

  // ---------------------------------------------------------------- both ways

  predicate IsInNodeModules(path: string) {
    "node_modules" in RelativePath.Split(path)
  }

  /** A directory of exactly that name, anywhere in the path. */
  lemma NodeModulesIsAComponent(parts: seq<string>)
    requires parts != [] && forall i :: 0 <= i < |parts| ==> '/' !in parts[i]
    ensures IsInNodeModules(RelativePath.Print(parts)) <==> "node_modules" in parts
  {
    RelativePath.SplitOfPrint(parts);
  }

  function JsonOf(package: string): string {
    package + "/package.json"
  }

  /** Decides membership from the path alone. */
  method Includes(g: Globs, members: seq<string>, package: string) returns (r: Option<bool>)
    ensures r == Included(g, PackageJsonPatterns(members), package)
  {
    if IsInNodeModules(package) {
      return Some(false);
    }
    var texts := Texts(PackageJsonPatterns(members));
    var rules := NewGlobSet(g, texts);
    if rules.None? {
      return None;
    }
    var included := IsMatch(g, rules.value, JsonOf(package));
    r := Some(included);
  }

  function RulesOf(patterns: seq<Pattern>): seq<Rule> {
    ParsedRules(Texts(patterns))
  }

  function Included(g: Globs, patterns: seq<Pattern>, package: string): Option<bool> {
    if IsInNodeModules(package) then Some(false)
    else if !AreGlobs(g, Texts(patterns)) then None
    else Some(LastSays(g, RulesOf(patterns), JsonOf(package)))
  }

  /** The files a glob walk yields: those that match and are not below `node_modules`. */
  function Walk(g: Globs, files: set<string>, glob: string): set<string> {
    set f | f in files && g.matches(glob, f) && !IsInNodeModules(f)
  }

  /** The globs that are walked: every pattern that is not negated, taken literally. */
  ghost predicate IsInclusion(patterns: seq<Pattern>, glob: string) {
    exists i: nat :: IsWalkedPattern(patterns, glob, i)
  }

  ghost predicate IsWalkedPattern(patterns: seq<Pattern>, glob: string, i: nat) {
    i < |patterns| && patterns[i] == Pattern(glob, false)
  }

  ghost predicate CanWalk(g: Globs, patterns: seq<Pattern>) {
    (HasNegated(patterns) ==> AreGlobs(g, Texts(patterns)))
    && (forall glob :: IsInclusion(patterns, glob) ==> g.isGlob(glob))
  }

  ghost predicate IsFound(g: Globs, patterns: seq<Pattern>, files: set<string>, f: string) {
    && (exists glob :: IsInclusion(patterns, glob) && f in Walk(g, files, glob))
    && (HasNegated(patterns) ==> LastSays(g, RulesOf(patterns), f))
  }

  /** Splits the patterns into those walked and all. */
  method Collect(patterns: seq<Pattern>) returns (inclusions: seq<string>, all: seq<string>, hasNegated: bool)
    ensures all == Texts(patterns) && (hasNegated <==> HasNegated(patterns))
    ensures forall glob :: glob in inclusions <==> IsInclusion(patterns, glob)
  {
    inclusions, all, hasNegated := [], [], false;
    for n := 0 to |patterns|
      invariant all == Texts(patterns[..n])
      invariant hasNegated <==> exists i :: 0 <= i < n && patterns[i].negated
      invariant forall glob :: glob in inclusions <==> exists i: nat :: i < n && IsWalkedPattern(patterns, glob, i)
    {
      if patterns[n].negated {
        hasNegated := true;
      } else {
        assert IsWalkedPattern(patterns, patterns[n].text, n);
        inclusions := inclusions + [patterns[n].text];
      }
      all := all + [patterns[n].text];
    }
    assert patterns[..|patterns|] == patterns;
  }

  /** Walks every inclusion and keeps what the whole list of rules lets in, if some rule is negated. */
  method GetPackageJsonPaths(g: Globs, members: seq<string>, files: set<string>) returns (r: Option<set<string>>)
    ensures r.Some? <==> CanWalk(g, PackageJsonPatterns(members))
    ensures r.Some? ==> forall f :: f in r.value <==> IsFound(g, PackageJsonPatterns(members), files, f)
  {
    var patterns := PackageJsonPatterns(members);
    var inclusions, all, hasNegated := Collect(patterns);
    var rules: Option<GlobSet> := None;
    if hasNegated {
      rules := NewGlobSet(g, all);
      if rules.None? {
        return None;
      }
    }
    var paths: set<string> := {};
    for n := 0 to |inclusions|
      invariant forall i :: 0 <= i < n ==> g.isGlob(inclusions[i])
      invariant forall f :: f in paths <==>
                  IsWalked(g, files, inclusions[..n], f) && (rules.Some? ==> LastSays(g, rules.value.rules, f))
    {
      assert inclusions[n] in inclusions;
      if !g.isGlob(inclusions[n]) {
        return None;
      }
      var kept := Filter(g, rules, Walk(g, files, inclusions[n]));
      WalkedStep(g, files, inclusions, n);
      paths := paths + kept;
    }
    assert inclusions[..|inclusions|] == inclusions;
    WalkedIsFound(g, patterns, files, inclusions);
    r := Some(paths);
  }

  ghost predicate IsWalked(g: Globs, files: set<string>, globs: seq<string>, f: string) {
    exists glob :: glob in globs && f in Walk(g, files, glob)
  }

  lemma WalkedIsFound(g: Globs, patterns: seq<Pattern>, files: set<string>, inclusions: seq<string>)
    requires forall glob :: glob in inclusions <==> IsInclusion(patterns, glob)
    ensures forall f :: IsFound(g, patterns, files, f) <==>
              IsWalked(g, files, inclusions, f) && (HasNegated(patterns) ==> LastSays(g, RulesOf(patterns), f))
  {
  }

  lemma WalkedStep(g: Globs, files: set<string>, globs: seq<string>, n: nat)
    requires n < |globs|
    ensures forall f :: IsWalked(g, files, globs[..n + 1], f) <==> IsWalked(g, files, globs[..n], f) || f in Walk(g, files, globs[n])
  {
    assert globs[..n + 1] == globs[..n] + [globs[n]];
  }

  method Filter(g: Globs, rules: Option<GlobSet>, entries: set<string>) returns (kept: set<string>)
    requires rules.Some? ==> rules.value.Valid()
    ensures forall f :: f in kept <==> f in entries && (rules.Some? ==> LastSays(g, rules.value.rules, f))
  {
    kept := {};
    var todo := entries;
    while todo != {}
      invariant todo <= entries
      invariant forall f :: f in kept <==> f in entries && f !in todo && (rules.Some? ==> LastSays(g, rules.value.rules, f))
      decreases |todo|
    {
      var f :| f in todo;
      todo := todo - {f};
      var keep := true;
      if rules.Some? {
        keep := IsMatch(g, rules.value, f);
      }
      if keep {
        kept := kept + {f};
      }
    }
  }

  // ---------------------------------------------------------------- agreement

  /**
   * A pattern such as `./!x` is walked as a glob that begins with `!`, but read back as an exclusion.
   * That only goes unnoticed when the rules are consulted anyway.
   */
  predicate ReadsAlike(patterns: seq<Pattern>) {
    HasNegated(patterns) || forall i :: 0 <= i < |patterns| ==> ParsedRule(patterns[i].text).1
  }

  lemma JsonIsInNodeModulesLike(package: string)
    ensures IsInNodeModules(JsonOf(package)) <==> IsInNodeModules(package)
  {
    var name := "package.json";
    RelativePath.SplitLast(package, name);
    assert JsonOf(package) == package + "/" + name;
    assert name != "node_modules";
  }

  lemma IncludedIsFound(g: Globs, patterns: seq<Pattern>, files: set<string>, f: string)
    requires ArePatterns(patterns) && f in files && !IsInNodeModules(f) && LastSays(g, RulesOf(patterns), f)
    ensures IsFound(g, patterns, files, f)
  {
    LastRuleDecides(g, RulesOf(patterns), f);
    var i: nat :| Decides(g, RulesOf(patterns), f, i) && RulesOf(patterns)[i].1;
    assert IsPattern(patterns[i]);
    assert IsWalkedPattern(patterns, patterns[i].text, i);
    assert f in Walk(g, files, patterns[i].text);
  }

  lemma FoundIsIncluded(g: Globs, patterns: seq<Pattern>, files: set<string>, f: string)
    requires ReadsAlike(patterns) && IsFound(g, patterns, files, f)
    ensures LastSays(g, RulesOf(patterns), f) && !IsInNodeModules(f)
  {
    var glob :| IsInclusion(patterns, glob) && f in Walk(g, files, glob);
    if !HasNegated(patterns) {
      var i: nat :| IsWalkedPattern(patterns, glob, i);
      LastRuleDecides(g, RulesOf(patterns), f);
      assert ParsedRule(patterns[i].text).1;
      assert Matches(g, RulesOf(patterns), f, i);
    }
  }

  /**
   * If the walk succeeds, both ways agree on every package whose `package.json` exists, unless a
   * pattern is misread; and without exclusions both succeed on the same lists.
   */
  lemma BothWaysAgree(g: Globs, patterns: seq<Pattern>, files: set<string>, package: string)
    requires ArePatterns(patterns) && ReadsAlike(patterns) && JsonOf(package) in files
    ensures CanWalk(g, patterns) ==> Included(g, patterns, package) == Some(IsFound(g, patterns, files, JsonOf(package)))
    ensures !HasNegated(patterns) ==> (CanWalk(g, patterns) <==> AreGlobs(g, Texts(patterns)))
  {
    var f := JsonOf(package);
    JsonIsInNodeModulesLike(package);
    if LastSays(g, RulesOf(patterns), f) && !IsInNodeModules(f) {
      IncludedIsFound(g, patterns, files, f);
    }
    if IsFound(g, patterns, files, f) {
      FoundIsIncluded(g, patterns, files, f);
    }
    if !HasNegated(patterns) {
      forall i: nat | i < |patterns|
        ensures ParsedRule(Texts(patterns)[i]).0 == patterns[i].text && IsWalkedPattern(patterns, patterns[i].text, i)
      {
        assert ParsedRule(patterns[i].text).1;
      }
    }
  }

  /** Every misread list has a relation of globs to paths, and files, for which the walk finds a package that its path does not show. */
  lemma MisreadPatternsDisagree(patterns: seq<Pattern>) returns (g: Globs, files: set<string>, package: string)
    requires !ReadsAlike(patterns)
    ensures JsonOf(package) in files && CanWalk(g, patterns)
    ensures IsFound(g, patterns, files, JsonOf(package)) && Included(g, patterns, package) == Some(false)
  {
    var i: nat :| i < |patterns| && !ParsedRule(patterns[i].text).1;
    var misread := patterns[i].text;
    package := "p";
    files := {JsonOf(package)};
    g := Globs(glob => true, (glob, path) => glob == misread);
    var f := JsonOf(package);
    RelativePath.SplitOfPrint(["p"]);
    JsonIsInNodeModulesLike(package);
    assert IsWalkedPattern(patterns, misread, i);
    assert f in Walk(g, files, misread);
    LastRuleDecides(g, RulesOf(patterns), f);
  }

  /** It takes no strange globs: if a plain name matches just itself, the member `./!x` and the package `!x` disagree. */
  lemma PlainNameDisagrees(g: Globs)
    requires g.isGlob("!x/package.json") && g.isGlob("x/package.json")
    requires forall path :: g.matches("!x/package.json", path) <==> path == "!x/package.json"
    requires forall path :: g.matches("x/package.json", path) <==> path == "x/package.json"
    ensures var patterns, files := PackageJsonPatterns(["./!x"]), {JsonOf("!x")};
            CanWalk(g, patterns) && IsFound(g, patterns, files, JsonOf("!x")) && Included(g, patterns, "!x") == Some(false)
  {
    var patterns, f := PackageJsonPatterns(["./!x"]), "!x/package.json";
    DotSlashBangPattern();
    assert patterns == [Pattern(f, false)] && JsonOf("!x") == f;
    assert ParsedRule(f) == ("x/package.json", false);
    RelativePath.SplitOfPrint(["!x"]);
    JsonIsInNodeModulesLike("!x");
    assert IsWalkedPattern(patterns, f, 0);
    assert f in Walk(g, {f}, f);
    LastRuleDecides(g, RulesOf(patterns), f);
  }

  lemma DotSlashBangPattern()
    ensures PackageJsonPattern("./!x") == Pattern("!x/package.json", false)
  {
    var member := "./!x";
    RootPrefixIsDropped("!x");
    assert member == "./" + "!x" && member[0..] == member && LeadingBangs(member) == 0;
    assert PackageJsonFile("!x") == "!x/package.json";
  }

  /** The shortest such list. */
  lemma DotSlashBangIsMisread()
    ensures !ReadsAlike(PackageJsonPatterns(["./!x"]))
  {
    DotSlashBangPattern();
    var patterns := PackageJsonPatterns(["./!x"]);
    assert patterns[0] == Pattern("!x/package.json", false) && !HasNegated(patterns);
    assert !ParsedRule(patterns[0].text).1;
  }
}
