/** Portable relative paths, as strings and as the component lists they print. */
module RelativePath {
  import opened Wrappers

  // ---------------------------------------------------------------- separators

  function LastSlash(s: string): (i: Option<nat>)
    ensures i.Some? ==> i.value < |s| && s[i.value] == '/'
  {
    if s == "" then None else if s[|s| - 1] == '/' then Some(|s| - 1) else LastSlash(s[..|s| - 1])
  }

  lemma {:induction false} LastSlashIsLast(s: string)
    ensures match LastSlash(s) case None => '/' !in s case Some(i) => '/' !in s[i + 1..]
  {
    if s != "" && s[|s| - 1] != '/' {
      LastSlashIsLast(s[..|s| - 1]);
      assert s == s[..|s| - 1] + [s[|s| - 1]];
      var i := LastSlash(s);
      if i.Some? {
        assert s[i.value + 1..] == s[..|s| - 1][i.value + 1..] + [s[|s| - 1]];
      }
    }
  }

  lemma {:induction false} PartsHaveNoSlash(s: string, c: string)
    requires c in Split(s)
    ensures '/' !in c
    decreases |s|
  {
    LastSlashIsLast(s);
    var i := LastSlash(s);
    if i.Some? && c in Split(s[..i.value]) {
      PartsHaveNoSlash(s[..i.value], c);
    }
  }

  function Split(s: string): (parts: seq<string>)
    ensures parts != []
    decreases |s|
  {
    match LastSlash(s)
    case None => [s]
    case Some(i) => Split(s[..i]) + [s[i + 1..]]
  }

  function Print(cs: seq<string>): string {
    if cs == [] then ""
    else if |cs| == 1 then cs[0]
    else Print(cs[..|cs| - 1]) + "/" + cs[|cs| - 1]
  }

  lemma {:induction false} LastSlashIsBeforeLast(p: string, c: string)
    requires '/' !in c
    ensures LastSlash(p + "/" + c) == Some(|p|)
    decreases |c|
  {
    var s := p + "/" + c;
    if c == "" {
      assert s == p + "/";
    } else {
      assert s[..|s| - 1] == p + "/" + c[..|c| - 1];
      LastSlashIsBeforeLast(p, c[..|c| - 1]);
    }
  }

  lemma SplitLast(p: string, c: string)
    requires '/' !in c
    ensures Split(p + "/" + c) == Split(p) + [c]
  {
    LastSlashIsBeforeLast(p, c);
    assert (p + "/" + c)[..|p|] == p && (p + "/" + c)[|p| + 1..] == c;
  }

  predicate IsName(c: string) {
    c != "" && '/' !in c
  }

  predicate AreNames(cs: seq<string>) {
    forall i :: 0 <= i < |cs| ==> IsName(cs[i])
  }

  /** Splitting undoes printing. */
  lemma {:induction false} SplitOfPrint(cs: seq<string>)
    requires cs != [] && forall i :: 0 <= i < |cs| ==> '/' !in cs[i]
    ensures Split(Print(cs)) == cs
  {
    if |cs| == 1 {
      assert LastSlash(cs[0]).None?;
    } else {
      var init, last := cs[..|cs| - 1], cs[|cs| - 1];
      SplitOfPrint(init);
      SplitLast(Print(init), last);
      assert Print(cs) == Print(init) + "/" + last && init + [last] == cs;
    }
  }

  lemma {:induction false} PrintIsEmpty(cs: seq<string>)
    requires AreNames(cs)
    ensures Print(cs) == "" <==> cs == []
    ensures cs != [] ==> Print(cs)[0] != '/'
  {
    if |cs| > 1 {
      PrintIsEmpty(cs[..|cs| - 1]);
    }
  }

  // ---------------------------------------------------------------- parsing

  datatype Component = RootDir | CurDir | ParentDir | Normal(name: string)

  /** Empty parts and dots carry no meaning. */
  function Kept(parts: seq<string>): seq<string> {
    if parts == [] then []
    else
      var last := parts[|parts| - 1];
      Kept(parts[..|parts| - 1]) + if last == "" || last == "." then [] else [last]
  }

  lemma {:induction false} KeptAreParts(parts: seq<string>, c: string)
    requires c in Kept(parts)
    ensures c in parts && c != "" && c != "."
  {
    var last := parts[|parts| - 1];
    assert parts == parts[..|parts| - 1] + [last];
    if c in Kept(parts[..|parts| - 1]) {
      KeptAreParts(parts[..|parts| - 1], c);
    }
  }

  function Named(c: string): Component {
    if c == ".." then ParentDir else Normal(c)
  }

  function Leading(path: string): (start: seq<Component>)
    ensures |start| <= 1 && (start == [RootDir] <==> path != "" && path[0] == '/') && (start == [RootDir] || start == [CurDir] || start == [])
  {
    if path != "" && path[0] == '/' then [RootDir] else if Split(path)[0] == "." then [CurDir] else []
  }

  function AllNamed(cs: seq<string>): (components: seq<Component>)
    ensures |components| == |cs| && forall i :: 0 <= i < |cs| ==> components[i] == Named(cs[i])
  {
    seq(|cs|, i requires 0 <= i < |cs| => Named(cs[i]))
  }

  datatype PathError = NonRelative | NonUtf8 | BackslashInComponent

  function ErrorOf(isText: string -> bool, c: string): Option<PathError> {
    if c == ".." then None
    else if !isText(c) then Some(NonUtf8)
    else if '\\' in c then Some(BackslashInComponent)
    else None
  }

  function FirstError(isText: string -> bool, cs: seq<string>): (e: Option<PathError>)
    ensures e.None? <==> forall i :: 0 <= i < |cs| ==> ErrorOf(isText, cs[i]).None?
  {
    if cs == [] then None
    else if ErrorOf(isText, cs[0]).Some? then ErrorOf(isText, cs[0])
    else FirstError(isText, cs[1..])
  }

  /** A path is refused if it is rooted, or for its first bad component; otherwise its components are printed. */
  function Parse(isText: string -> bool, path: string): Result<string, PathError> {
    if path != "" && path[0] == '/' then Err(NonRelative)
    else
      var cs := Kept(Split(path));
      match FirstError(isText, cs)
      case Some(e) => Err(e)
      case None => Ok(Print(cs))
  }

  function Terminated(cs: seq<string>): string {
    if cs == [] then "" else Print(cs) + "/"
  }

  lemma DropTerminator(cs: seq<string>)
    ensures if cs == [] then Terminated(cs) == "" else Terminated(cs) != "" && Terminated(cs)[..|Terminated(cs)| - 1] == Print(cs)
  {
  }

  lemma TerminatedStep(cs: seq<string>, n: nat)
    requires n < |cs|
    ensures Terminated(cs[..n + 1]) == Terminated(cs[..n]) + cs[n] + "/"
  {
    assert cs[..n + 1][..n] == cs[..n];
  }

  lemma {:induction false} FirstErrorIsAt(isText: string -> bool, cs: seq<string>, i: nat)
    requires i < |cs| && ErrorOf(isText, cs[i]).Some? && forall j :: 0 <= j < i ==> ErrorOf(isText, cs[j]).None?
    ensures FirstError(isText, cs) == ErrorOf(isText, cs[i])
    decreases i
  {
    if i > 0 {
      FirstErrorIsAt(isText, cs[1..], i - 1);
    }
  }

  method AppendComponent(isText: string -> bool, pathStr: string, component: Component) returns (r: Result<string, PathError>)
    requires component.ParentDir? || (component.Normal? && component.name != "..")
    ensures var name := if component.ParentDir? then ".." else component.name;
            r == match ErrorOf(isText, name)
                 case Some(e) => Err(e)
                 case None => Ok(pathStr + name + "/")
  {
    match component {
      case ParentDir => r := Ok(pathStr + ".." + "/");
      case Normal(name) =>
        if !isText(name) {
          return Err(NonUtf8);
        }
        if '\\' in name {
          return Err(BackslashInComponent);
        }
        r := Ok(pathStr + name + "/");
    }
  }

  method AppendNext(isText: string -> bool, pathStr: string, component: Component, ghost cs: seq<string>, ghost done: nat)
    returns (r: Result<string, PathError>)
    requires done < |cs| && component == Named(cs[done]) && IsAppended(isText, cs, done, pathStr)
    ensures r.Err? ==> FirstError(isText, cs) == Some(r.error)
    ensures r.Ok? ==> IsAppended(isText, cs, done + 1, r.value)
  {
    TerminatedStep(cs, done);
    r := AppendComponent(isText, pathStr, component);
    if r.Err? {
      FirstErrorIsAt(isText, cs, done);
    }
  }

  /** Appends the components that follow the first `skipped`, each with a separator. */
  method AppendComponents(isText: string -> bool, components: seq<Component>, ghost cs: seq<string>, ghost skipped: nat)
    returns (r: Result<string, PathError>)
    requires skipped <= 1 && |components| == skipped + |cs| && (skipped == 1 ==> components[0].CurDir?)
    requires components[skipped..] == AllNamed(cs)
    ensures r == match FirstError(isText, cs)
                 case Some(e) => Err(e)
                 case None => Ok(Terminated(cs))
  {
    var pathStr := "";
    ghost var done := 0;
    for n := 0 to |components|
      invariant done == (if n < skipped then 0 else n - skipped) && IsAppended(isText, cs, done, pathStr)
    {
      ComponentAt(components, cs, skipped, n);
      if components[n].CurDir? {
        continue;
      }
      r := AppendNext(isText, pathStr, components[n], cs, done);
      if r.Err? {
        return;
      }
      pathStr := r.value;
      done := done + 1;
    }
    NothingIsWrong(isText, cs, pathStr);
    r := Ok(pathStr);
  }

  /** The first `done` components are printed, and none of them is an error. */
  ghost predicate IsAppended(isText: string -> bool, cs: seq<string>, done: nat, pathStr: string) {
    done <= |cs| && pathStr == Terminated(cs[..done]) && forall j :: 0 <= j < done ==> ErrorOf(isText, cs[j]).None?
  }

  lemma {:induction false} NoFirstError(isText: string -> bool, cs: seq<string>)
    requires forall j :: 0 <= j < |cs| ==> ErrorOf(isText, cs[j]).None?
    ensures FirstError(isText, cs).None?
  {
    if cs != [] {
      NoFirstError(isText, cs[1..]);
    }
  }

  lemma NothingIsWrong(isText: string -> bool, cs: seq<string>, pathStr: string)
    requires IsAppended(isText, cs, |cs|, pathStr)
    ensures FirstError(isText, cs).None? && pathStr == Terminated(cs)
  {
    NoFirstError(isText, cs);
    assert cs[..|cs|] == cs;
  }

  lemma ComponentAt(components: seq<Component>, cs: seq<string>, skipped: nat, n: nat)
    requires skipped <= 1 && |components| == skipped + |cs| && (skipped == 1 ==> components[0].CurDir?)
    requires components[skipped..] == AllNamed(cs) && n < |components|
    ensures components[n] == if n < skipped then CurDir else Named(cs[n - skipped])
  {
    if n >= skipped {
      assert components[n] == components[skipped..][n - skipped];
    }
  }

  /** How a Unix path is taken apart: a leading slash or dot shows up, other dots and empty parts do not. */
  method TakeApart(path: string) returns (components: seq<Component>, ghost cs: seq<string>)
    ensures cs == Kept(Split(path)) && |cs| <= |components| <= |cs| + 1
    ensures components != [] && components[0].RootDir? <==> path != "" && path[0] == '/'
    ensures |components| > |cs| && !components[0].RootDir? ==> components[0].CurDir?
    ensures components[|components| - |cs|..] == AllNamed(cs)
  {
    cs := Kept(Split(path));
    var start, named := Leading(path), AllNamed(Kept(Split(path)));
    components := start + named;
    assert |components| == |start| + |cs| && components[|start|..] == named;
  }

  /** Refuses a rooted path, appends each component with a separator, and drops the last separator. */
  method New(isText: string -> bool, path: string) returns (r: Result<string, PathError>)
    ensures r == Parse(isText, path)
  {
    var components;
    ghost var cs;
    components, cs := TakeApart(path);
    if components != [] && components[0].RootDir? {
      return Err(NonRelative);
    }
    var appended := AppendComponents(isText, components, cs, |components| - |cs|);
    if appended.Err? {
      return Err(appended.error);
    }
    var pathStr := appended.value;
    if pathStr != "" {
      pathStr := pathStr[..|pathStr| - 1];
    }
    DropTerminator(cs);
    r := Ok(pathStr);
  }

  // ---------------------------------------------------------------- what parsing accepts

  /** What is between two slashes and says nothing. */
  predicate IsNoise(part: string) {
    part == "" || part == "."
  }

  /** A name that cannot be carried to another platform. */
  predicate IsUnfit(isText: string -> bool, part: string) {
    !IsNoise(part) && part != ".." && (!isText(part) || '\\' in part)
  }

  /** What is printed is what parts are left without noise, in their order. */
  lemma {:induction false} NoiseIsDropped(a: seq<string>, b: seq<string>, part: string)
    ensures Kept(a + b) == Kept(a) + Kept(b)
    ensures Kept([part]) == if IsNoise(part) then [] else [part]
    decreases |b|
  {
    assert [part][..0] == [];
    if b == [] {
      assert a + b == a;
    } else {
      var init := b[..|b| - 1];
      NoiseIsDropped(a, init, part);
      assert (a + b)[..|a + b| - 1] == a + init;
    }
  }

  lemma {:induction false} ErrorsStayFirst(isText: string -> bool, a: seq<string>, b: seq<string>)
    requires FirstError(isText, a).Some?
    ensures FirstError(isText, a + b) == FirstError(isText, a)
  {
    assert (a + b)[0] == a[0] && (a + b)[1..] == a[1..] + b;
    if ErrorOf(isText, a[0]).None? {
      ErrorsStayFirst(isText, a[1..], b);
    }
  }

  lemma {:induction false} FirstUnfitIsReported(isText: string -> bool, parts: seq<string>, i: nat)
    requires i < |parts| && IsUnfit(isText, parts[i]) && forall j :: 0 <= j < i ==> !IsUnfit(isText, parts[j])
    ensures FirstError(isText, Kept(parts)) == Some(if isText(parts[i]) then BackslashInComponent else NonUtf8)
    decreases |parts|
  {
    var last := |parts| - 1;
    var init := parts[..last];
    if i < last {
      FirstUnfitIsReported(isText, init, i);
      ErrorsStayFirst(isText, Kept(init), if IsNoise(parts[last]) then [] else [parts[last]]);
    } else {
      AllFit(isText, init);
      FirstErrorIsAt(isText, Kept(parts), |Kept(init)|);
    }
  }

  lemma AllFit(isText: string -> bool, parts: seq<string>)
    requires forall j :: 0 <= j < |parts| ==> !IsUnfit(isText, parts[j])
    ensures forall j :: 0 <= j < |Kept(parts)| ==> ErrorOf(isText, Kept(parts)[j]).None?
  {
    forall j | 0 <= j < |Kept(parts)| ensures ErrorOf(isText, Kept(parts)[j]).None? {
      KeptAreParts(parts, Kept(parts)[j]);
    }
  }

  lemma {:induction false} StartsWithSlash(parts: seq<string>)
    requires parts != [] && forall i :: 0 <= i < |parts| ==> '/' !in parts[i]
    ensures Print(parts) != "" && Print(parts)[0] == '/' <==> |parts| > 1 && parts[0] == ""
  {
    if |parts| == 2 {
      assert parts[..1] == [parts[0]];
    } else if |parts| > 2 {
      StartsWithSlash(parts[..|parts| - 1]);
    }
  }

  /**
   * Whatever is written between the slashes: the path is refused if it begins with a slash, or else
   * for the first name that is not text or holds a backslash; everything else is accepted.
   */
  lemma AcceptsWhatIsPortable(isText: string -> bool, parts: seq<string>)
    requires parts != [] && forall i :: 0 <= i < |parts| ==> '/' !in parts[i]
    ensures Parse(isText, Print(parts)) == Err(NonRelative) <==> |parts| > 1 && parts[0] == ""
    ensures Parse(isText, Print(parts)).Err? <==>
            (|parts| > 1 && parts[0] == "") || exists part :: part in parts && IsUnfit(isText, part)
    ensures forall i :: 0 <= i < |parts| && IsUnfit(isText, parts[i]) && (forall j :: 0 <= j < i ==> !IsUnfit(isText, parts[j])) ==>
              Parse(isText, Print(parts)) in {Err(NonRelative), Err(if isText(parts[i]) then BackslashInComponent else NonUtf8)}
    ensures Parse(isText, Print(parts)).Ok? ==> Parse(isText, Print(parts)).value == Print(Kept(parts))
  {
    ParseOfPrint(isText, parts);
    ErrorsAreUnfit(isText, parts);
  }

  lemma ParseOfPrint(isText: string -> bool, parts: seq<string>)
    requires parts != [] && forall i :: 0 <= i < |parts| ==> '/' !in parts[i]
    ensures Parse(isText, Print(parts)) ==
            if |parts| > 1 && parts[0] == "" then Err(NonRelative)
            else match FirstError(isText, Kept(parts)) case Some(e) => Err(e) case None => Ok(Print(Kept(parts)))
  {
    StartsWithSlash(parts);
    SplitOfPrint(parts);
  }

  lemma ErrorsAreUnfit(isText: string -> bool, parts: seq<string>)
    ensures FirstError(isText, Kept(parts)).Some? <==> exists part :: part in parts && IsUnfit(isText, part)
    ensures FirstError(isText, Kept(parts)) != Some(NonRelative)
    ensures forall i :: 0 <= i < |parts| && IsUnfit(isText, parts[i]) && (forall j :: 0 <= j < i ==> !IsUnfit(isText, parts[j])) ==>
              FirstError(isText, Kept(parts)) == Some(if isText(parts[i]) then BackslashInComponent else NonUtf8)
  {
    forall i | 0 <= i < |parts| && IsUnfit(isText, parts[i]) && (forall j :: 0 <= j < i ==> !IsUnfit(isText, parts[j]))
      ensures FirstError(isText, Kept(parts)) == Some(if isText(parts[i]) then BackslashInComponent else NonUtf8)
    {
      FirstUnfitIsReported(isText, parts, i);
    }
    if exists part :: part in parts && IsUnfit(isText, part) {
      var i := FirstUnfit(isText, parts);
    } else {
      AllFit(isText, parts);
    }
  }

  lemma {:induction false} FirstUnfit(isText: string -> bool, parts: seq<string>) returns (i: nat)
    requires exists part :: part in parts && IsUnfit(isText, part)
    ensures i < |parts| && IsUnfit(isText, parts[i]) && forall j :: 0 <= j < i ==> !IsUnfit(isText, parts[j])
  {
    if IsUnfit(isText, parts[0]) {
      i := 0;
    } else {
      assert parts == [parts[0]] + parts[1..];
      var k := FirstUnfit(isText, parts[1..]);
      i := k + 1;
      assert forall j :: 0 < j < i ==> parts[j] == parts[1..][j - 1];
    }
  }

  // ---------------------------------------------------------------- portable paths

  predicate IsPortableComponent(isText: string -> bool, c: string) {
    IsName(c) && c != "." && ErrorOf(isText, c).None?
  }

  predicate ArePortable(isText: string -> bool, cs: seq<string>) {
    forall i :: 0 <= i < |cs| ==> IsPortableComponent(isText, cs[i])
  }

  lemma {:induction false} KeepsPortable(isText: string -> bool, cs: seq<string>)
    requires ArePortable(isText, cs)
    ensures Kept(cs) == cs
  {
    if cs != [] {
      KeepsPortable(isText, cs[..|cs| - 1]);
      assert cs == cs[..|cs| - 1] + [cs[|cs| - 1]];
    }
  }

  /** The components a portable path prints. */
  function ComponentsOf(p: string): seq<string> {
    Kept(Split(p))
  }

  lemma ComponentsOfPrint(isText: string -> bool, cs: seq<string>)
    requires ArePortable(isText, cs)
    ensures ComponentsOf(Print(cs)) == cs
  {
    if cs == [] {
      assert Split("") == [""] && [""][..0] == [];
    } else {
      assert forall i :: 0 <= i < |cs| ==> IsPortableComponent(isText, cs[i]);
      SplitOfPrint(cs);
      KeepsPortable(isText, cs);
    }
  }

  /** A parsed path prints portable components. */
  lemma ParsedIsPrinted(isText: string -> bool, path: string)
    requires Parse(isText, path).Ok?
    ensures ArePortable(isText, ComponentsOf(path)) && Parse(isText, path).value == Print(ComponentsOf(path))
  {
    var cs := ComponentsOf(path);
    forall i | 0 <= i < |cs|
      ensures IsPortableComponent(isText, cs[i])
    {
      assert cs[i] in cs;
      KeptAreParts(Split(path), cs[i]);
      PartsHaveNoSlash(path, cs[i]);
    }
  }

  /** Printed portable components are exactly what parsing leaves alone. */
  lemma PortableIsFixed(isText: string -> bool, p: string)
    ensures Parse(isText, p) == Ok(p) <==> ArePortable(isText, ComponentsOf(p)) && p == Print(ComponentsOf(p))
  {
    var cs := ComponentsOf(p);
    if ArePortable(isText, cs) && p == Print(cs) {
      assert forall i :: 0 <= i < |cs| ==> IsPortableComponent(isText, cs[i]);
      PrintIsEmpty(cs);
    }
    if Parse(isText, p) == Ok(p) {
      ParsedIsPrinted(isText, p);
    }
  }

  /** Parsing its own result changes nothing: `new(p.as_str())` is `p`. */
  lemma ParseIsIdempotent(isText: string -> bool, path: string)
    requires Parse(isText, path).Ok?
    ensures Parse(isText, Parse(isText, path).value) == Parse(isText, path)
  {
    ParsedIsPrinted(isText, path);
    ComponentsOfPrint(isText, ComponentsOf(path));
    PortableIsFixed(isText, Print(ComponentsOf(path)));
  }

  /** The path prints these portable components. */
  ghost predicate Prints(isText: string -> bool, p: string, cs: seq<string>) {
    ArePortable(isText, cs) && p == Print(cs)
  }

  // ---------------------------------------------------------------- operations

  function Join(p: string, q: string): string {
    if q == "" then p else if p == "" then q else p + "/" + q
  }

  /** Joining concatenates components. */
  lemma {:induction false} JoinConcatenates(isText: string -> bool, p: string, a: seq<string>, q: string, b: seq<string>)
    requires Prints(isText, p, a) && Prints(isText, q, b)
    ensures Prints(isText, Join(p, q), a + b)
    decreases |b|
  {
    NamesOf(isText, a);
    NamesOf(isText, b);
    PrintIsEmpty(a);
    PrintIsEmpty(b);
    if b == [] {
      assert a + b == a;
    } else {
      var init, last := b[..|b| - 1], b[|b| - 1];
      JoinConcatenates(isText, p, a, Print(init), init);
      assert (a + b)[..|a + b| - 1] == a + init;
      NamesOf(isText, init);
      PrintIsEmpty(init);
      if a == [] {
        assert a + b == b;
      }
    }
  }

  lemma NamesOf(isText: string -> bool, cs: seq<string>)
    requires ArePortable(isText, cs)
    ensures AreNames(cs)
  {
    assert forall i :: 0 <= i < |cs| ==> IsPortableComponent(isText, cs[i]);
  }

  function Parent(p: string): Option<string> {
    if p == "" then None
    else match LastSlash(p)
         case None => Some("")
         case Some(i) => Some(p[..i])
  }

  /** The parent drops the last component; only the empty path has none. */
  lemma ParentDropsLast(isText: string -> bool, p: string, cs: seq<string>)
    requires Prints(isText, p, cs)
    ensures cs == [] ==> Parent(p) == None
    ensures cs != [] ==> Parent(p).Some? && Prints(isText, Parent(p).value, cs[..|cs| - 1])
  {
    NamesOf(isText, cs);
    PrintIsEmpty(cs);
    if |cs| > 1 {
      LastSlashIsBeforeLast(Print(cs[..|cs| - 1]), cs[|cs| - 1]);
      assert p[..|Print(cs[..|cs| - 1])|] == Print(cs[..|cs| - 1]);
    }
  }

  /** The parent of a join is the join with the parent. */
  lemma ParentOfJoin(isText: string -> bool, p: string, a: seq<string>, q: string, b: seq<string>)
    requires Prints(isText, p, a) && Prints(isText, q, b) && q != ""
    ensures Parent(q).Some? && Parent(Join(p, q)) == Some(Join(p, Parent(q).value))
  {
    JoinConcatenates(isText, p, a, q, b);
    ParentDropsLast(isText, q, b);
    ParentDropsLast(isText, Join(p, q), a + b);
    JoinConcatenates(isText, p, a, Parent(q).value, b[..|b| - 1]);
    assert (a + b)[..|a + b| - 1] == a + b[..|b| - 1];
  }

  /** Compares component by component; what is left of the path is printed. */
  method StripPrefix(p: string, base: string) returns (r: Option<string>)
    ensures r == Stripped(p, base)
  {
    var cs, prefix := ComponentsOf(p), ComponentsOf(base);
    for n := 0 to |prefix|
      invariant n <= |cs| && prefix[..n] == cs[..n]
    {
      if n >= |cs| || cs[n] != prefix[n] {
        return None;
      }
    }
    assert prefix[..|prefix|] == prefix;
    r := Some(Print(cs[|prefix|..]));
  }

  function Stripped(p: string, base: string): Option<string> {
    if ComponentsOf(base) <= ComponentsOf(p) then Some(Print(ComponentsOf(p)[|ComponentsOf(base)|..])) else None
  }

  /** Stripping undoes joining. */
  lemma StripUndoesJoin(isText: string -> bool, p: string, a: seq<string>, q: string, b: seq<string>)
    requires Prints(isText, p, a) && Prints(isText, q, b)
    ensures Stripped(Join(p, q), p) == Some(q)
  {
    JoinConcatenates(isText, p, a, q, b);
    ComponentsOfPrint(isText, a);
    ComponentsOfPrint(isText, a + b);
    assert (a + b)[|a|..] == b;
  }

  /** What is left after stripping, joined onto the prefix, is the path again; nothing else is. */
  lemma JoinUndoesStrip(isText: string -> bool, p: string, a: seq<string>, base: string, b: seq<string>)
    requires Prints(isText, p, a) && Prints(isText, base, b)
    ensures Stripped(p, base).Some? <==> b <= a
    ensures Stripped(p, base).Some? ==> Join(base, Stripped(p, base).value) == p
    ensures forall q, c :: Prints(isText, q, c) && Join(base, q) == p ==> Stripped(p, base) == Some(q)
  {
    ComponentsOfPrint(isText, a);
    ComponentsOfPrint(isText, b);
    if b <= a {
      JoinsRest(isText, p, a, base, b);
    }
    forall q, c | Prints(isText, q, c) && Join(base, q) == p
      ensures Stripped(p, base) == Some(q)
    {
      StripUndoesJoin(isText, base, b, q, c);
    }
  }

  lemma JoinsRest(isText: string -> bool, p: string, a: seq<string>, base: string, b: seq<string>)
    requires Prints(isText, p, a) && Prints(isText, base, b) && b <= a
    ensures Join(base, Print(a[|b|..])) == p
  {
    var rest := a[|b|..];
    assert Prints(isText, Print(rest), rest);
    JoinConcatenates(isText, base, b, Print(rest), rest);
    assert b + rest == a;
  }

  /** Being a prefix as a string is not enough. */
  lemma StringPrefixIsNoPrefix()
    ensures "ab" < "abc" && Stripped("abc", "ab") == None
  {
    var names := (s: string) => true;
    ComponentsOfPrint(names, ["ab"]);
    ComponentsOfPrint(names, ["abc"]);
  }

  /** A path that grows in place. */
  class RelativePathBuf {
    var path: string

    constructor ()
      ensures path == ""
    {
      path := "";
    }

    method Push(rel: string)
      modifies this
      ensures path == Join(old(path), rel)
    {
      if rel == "" {
        return;
      }
      if path != "" {
        path := path + "/";
      }
      path := path + rel;
    }
  }
}
