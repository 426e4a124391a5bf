/** Relative POSIX paths as `PurePosixPath` reads and writes them, and the checks on artifact paths. */
module Paths {
  import opened Wrappers

  /** A path is its root, which is empty for a relative path, and its components. */
  datatype Path = Path(root: string, parts: seq<string>)

  function SlashAt(s: string): (n: nat)
    ensures n <= |s|
    ensures forall i :: 0 <= i < n ==> s[i] != '/'
    ensures n < |s| ==> s[n] == '/'
  {
    if s == [] || s[0] == '/' then 0 else 1 + SlashAt(s[1..])
  }

  predicate Keeps(component: string) {
    component != "" && component != "."
  }

  /** The components between slashes, without the empty ones and the single dots. */
  function Components(s: string): seq<string>
    decreases |s|
  {
    var n := SlashAt(s);
    (if Keeps(s[..n]) then [s[..n]] else []) + if n == |s| then [] else Components(s[n + 1..])
  }

  function Root(s: string): string {
    if s == "" || s[0] != '/' then ""
    else if |s| >= 2 && s[1] == '/' && !(|s| >= 3 && s[2] == '/') then "//"
    else "/"
  }

  function Parse(s: string): Path {
    Path(Root(s), Components(s))
  }

  function Join(parts: seq<string>): string {
    if parts == [] then ""
    else if |parts| == 1 then parts[0]
    else parts[0] + "/" + Join(parts[1..])
  }

  function AsPosix(p: Path): string {
    if p.root == "" && p.parts == [] then "." else p.root + Join(p.parts)
  }

  ghost predicate IsComponent(c: string) {
    Keeps(c) && '/' !in c
  }

  ghost predicate AllComponents(parts: seq<string>) {
    forall i :: 0 <= i < |parts| ==> IsComponent(parts[i])
  }

  lemma {:induction false} ComponentsAreComponents(s: string)
    ensures AllComponents(Components(s))
    decreases |s|
  {
    var n := SlashAt(s);
    if n < |s| {
      ComponentsAreComponents(s[n + 1..]);
    }
  }

  lemma SlashAfter(c: string, rest: string)
    requires '/' !in c
    ensures SlashAt(c) == |c| && SlashAt(c + "/" + rest) == |c|
  {
    var s := c + "/" + rest;
    assert s[|c|] == '/' && forall i :: 0 <= i < |c| ==> s[i] == c[i];
  }

  lemma ComponentsStep(c: string, rest: string)
    requires IsComponent(c)
    ensures Components(c) == [c] && Components(c + "/" + rest) == [c] + Components(rest)
  {
    var s := c + "/" + rest;
    SlashAfter(c, rest);
    assert c[..|c|] == c && s[..|c|] == c && s[|c| + 1..] == rest;
  }

  /** Reading a written path gives back its components. */
  lemma {:induction false} ComponentsOfJoin(parts: seq<string>)
    requires AllComponents(parts)
    ensures Components(Join(parts)) == parts
  {
    if parts != [] {
      hide Components;
      hide IsComponent;
      ComponentsStep(parts[0], Join(parts[1..]));
      ComponentsOfJoin(parts[1..]);
      assert parts == [parts[0]] + parts[1..];
    }
  }

  lemma SlashConcat(a: string, b: string)
    ensures SlashAt(a + "/" + b) == SlashAt(a)
  {
    var n, s := SlashAt(a), a + "/" + b;
    assert s[n] == '/' && forall i :: 0 <= i < n ==> s[i] == a[i];
  }

  lemma ComponentsAt(s: string)
    ensures var n := SlashAt(s);
      Components(s) == (if Keeps(s[..n]) then [s[..n]] else []) + if n == |s| then [] else Components(s[n + 1..])
  {}

  /** Joining two texts by a slash joins their components. */
  lemma {:induction false} ComponentsConcat(a: string, b: string)
    ensures Components(a + "/" + b) == Components(a) + Components(b)
    decreases |a|
  {
    hide Components;
    hide Keeps;
    var n, s := SlashAt(a), a + "/" + b;
    SlashConcat(a, b);
    ComponentsAt(a);
    ComponentsAt(s);
    hide SlashAt;
    assert s[..n] == a[..n];
    if n == |a| {
      assert s[n + 1..] == b;
    } else {
      ComponentsConcat(a[n + 1..], b);
      assert s[n + 1..] == a[n + 1..] + "/" + b;
    }
  }

  lemma {:induction false} JoinSnoc(parts: seq<string>, c: string)
    requires parts != []
    ensures Join(parts + [c]) == Join(parts) + "/" + c
  {
    var all := parts + [c];
    if |parts| == 1 {
      assert all[1..] == [c];
    } else {
      assert all[1..] == parts[1..] + [c];
      JoinSnoc(parts[1..], c);
      var rest := Join(parts[1..]);
      assert parts[0] + "/" + (rest + "/" + c) == parts[0] + "/" + rest + "/" + c;
    }
  }

  lemma JoinStarts(parts: seq<string>)
    requires parts != [] && AllComponents(parts)
    ensures Join(parts) != "" && Join(parts)[0] == parts[0][0] && parts[0][0] != '/'
  {
    assert parts[0][0] in parts[0];
  }

  /** Writing and reading are inverse on the components a relative path can have. */
  lemma ParseOfAsPosix(parts: seq<string>)
    requires AllComponents(parts)
    ensures Parse(AsPosix(Path("", parts))) == Path("", parts)
  {
    if parts == [] {
      assert SlashAt(".") == 1;
      assert Components(".") == [];
    } else {
      ComponentsOfJoin(parts);
      JoinStarts(parts);
      assert "" + Join(parts) == Join(parts);
    }
  }

  // ----- The checks on artifact paths -----

  datatype ValueError = ValueError(field: string)

  predicate IsAbsolute(p: Path) {
    p.root != ""
  }

  function RelativePath(value: string, field: string): (r: Result<Path, ValueError>)
    ensures r.Ok? ==> r.value.root == "" && AllComponents(r.value.parts)
  {
    var path := Parse(value);
    ComponentsAreComponents(value);
    if value == "" || IsAbsolute(path) || ".." in path.parts then Raised(ValueError(field)) else Ok(path)
  }

  /** At least three components, below `artifacts/runtime`. */
  predicate UnderRuntime(parts: seq<string>) {
    |parts| >= 3 && parts[0] == "artifacts" && parts[1] == "runtime"
  }

  function ArtifactDir(value: string): Result<string, ValueError> {
    var path :- RelativePath(value, "artifact_dir");
    if UnderRuntime(path.parts) then Ok(AsPosix(path)) else Raised(ValueError("artifact_dir"))
  }

  predicate IsPrefix(dir: seq<string>, parts: seq<string>) {
    |dir| <= |parts| && parts[..|dir|] == dir
  }

  /** Below the directory, without a step upwards. */
  ghost predicate StaysInside(dir: seq<string>, parts: seq<string>) {
    |dir| <= |parts| && parts[..|dir|] == dir && ".." !in parts
  }

  function LastDot(name: string): (n: int)
    ensures -1 <= n < |name|
  {
    if name == "" then -1
    else if name[|name| - 1] == '.' then |name| - 1
    else LastDot(name[..|name| - 1])
  }

  /** The file extension with its dot; leading dots start none. */
  function Suffix(parts: seq<string>): string {
    if parts == [] then ""
    else
      var name := parts[|parts| - 1];
      var n := LastDot(name);
      if n >= 0 && exists i :: 0 <= i < n && name[i] != '.' then name[n..] else ""
  }

  /** A path inside the artifact directory, with the given extension unless that is empty. */
  function PathInside(value: string, artifactDir: string, suffix: string, field: string): Result<string, ValueError> {
    var path :- RelativePath(value, field);
    if !IsPrefix(Components(artifactDir), path.parts) then Raised(ValueError(field))
    else if suffix != "" && Suffix(path.parts) != suffix then Raised(ValueError(field))
    else Ok(AsPosix(path))
  }

  lemma AsPosixNotEmpty(parts: seq<string>)
    requires AllComponents(parts)
    ensures AsPosix(Path("", parts)) != ""
  {
    if parts != [] {
      JoinStarts(parts);
    }
  }

  /** An accepted path, written out, is accepted again as it stands. */
  lemma RelativePathStable(value: string, field: string)
    requires RelativePath(value, field).Ok?
    ensures var path := RelativePath(value, field).value;
      RelativePath(AsPosix(path), field) == Ok(path)
  {
    var path := RelativePath(value, field).value;
    ParseOfAsPosix(path.parts);
    AsPosixNotEmpty(path.parts);
  }

  /** The checks of the artifact directory accept their own result and return it unchanged. */
  lemma ArtifactDirStable(value: string)
    requires ArtifactDir(value).Ok?
    ensures var d := ArtifactDir(value).value;
      && ArtifactDir(d) == Ok(d)
      && UnderRuntime(Components(d)) && ".." !in Components(d) && d == Join(Components(d))
      && d != "" && d[0] == 'a'
  {
    RelativePathStable(value, "artifact_dir");
    var path := RelativePath(value, "artifact_dir").value;
    ParseOfAsPosix(path.parts);
    JoinStarts(path.parts);
  }

  /** The same for a path inside the directory, which keeps the directory's components as a prefix. */
  lemma PathInsideStable(value: string, dir: string, suffix: string, field: string)
    requires PathInside(value, dir, suffix, field).Ok?
    ensures var p := PathInside(value, dir, suffix, field).value;
      && PathInside(p, dir, suffix, field) == Ok(p)
      && StaysInside(Components(dir), Components(p))
      && (UnderRuntime(Components(dir)) ==> p != "" && p[0] == 'a')
  {
    RelativePathStable(value, field);
    var path := RelativePath(value, field).value;
    ParseOfAsPosix(path.parts);
    if UnderRuntime(Components(dir)) {
      assert path.parts[0] == Components(dir)[0];
      JoinStarts(path.parts);
    }
  }

  lemma AcceptedDir(dir: string)
    requires ArtifactDir(dir).Ok?
    ensures UnderRuntime(Components(dir)) && ".." !in Components(dir)
    ensures Components(ArtifactDir(dir).value) == Components(dir)
    ensures ArtifactDir(dir).value == Join(Components(dir)) && Root(dir) == "" && dir != ""
    ensures AllComponents(Components(dir))
  {
    hide Components;
    hide Join;
    hide IsComponent;
    ComponentsAreComponents(dir);
    ParseOfAsPosix(Components(dir));
  }

  // ----- Exactly what is accepted -----

  ghost predicate IsRelative(value: string) {
    value != "" && value[0] != '/'
  }

  /** The components written out again. */
  function Written(value: string): string {
    if Components(value) == [] then "." else Join(Components(value))
  }

  /** A path is accepted as relative exactly when it is not empty, does not start at the root, and has no
      step upwards. */
  lemma RelativeExactly(value: string, field: string)
    ensures RelativePath(value, field).Ok? <==> IsRelative(value) && ".." !in Components(value)
    ensures RelativePath(value, field).Ok? ==>
      var path := RelativePath(value, field).value;
      path.parts == Components(value) && AsPosix(path) == Written(value)
  {
    hide Components;
    hide Join;
    if Components(value) != [] {
      assert "" + Join(Components(value)) == Join(Components(value));
    }
  }

  /** An artifact directory is accepted exactly when it is relative, its components start with `artifacts`,
      `runtime` and a third one, and none of them steps upwards; it is returned with these components. */
  lemma ArtifactDirExactly(value: string, dir: string)
    ensures ArtifactDir(value) == Ok(dir) <==>
      var parts := Components(value);
      && IsRelative(value) && ".." !in parts
      && |parts| >= 3 && parts[0] == "artifacts" && parts[1] == "runtime" && dir == Join(parts)
  {
    hide Components;
    hide RelativePath;
    hide Join;
    RelativeExactly(value, "artifact_dir");
  }

  /** The name ends in the extension, with something but dots before it. */
  ghost predicate HasExtension(parts: seq<string>, extension: string) {
    && parts != []
    && exists stem :: parts[|parts| - 1] == stem + extension && exists i :: 0 <= i < |stem| && stem[i] != '.'
  }

  lemma {:induction false} AfterLastDot(name: string)
    ensures var n := LastDot(name);
      && (n >= 0 ==> name[n] == '.') && forall i :: n < i < |name| ==> name[i] != '.'
  {
    if name != "" && name[|name| - 1] != '.' {
      AfterLastDot(name[..|name| - 1]);
    }
  }

  lemma SuffixExactly(parts: seq<string>, extension: string)
    requires extension != "" && extension[0] == '.' && '.' !in extension[1..]
    ensures Suffix(parts) == extension <==> HasExtension(parts, extension)
  {
    hide LastDot;
    if parts != [] {
      var name := parts[|parts| - 1];
      AfterLastDot(name);
      var n := LastDot(name);
      if Suffix(parts) == extension {
        var i :| 0 <= i < n && name[i] != '.';
        assert name == name[..n] + extension && name[..n][i] != '.';
      }
      if stem :| name == stem + extension && exists i :: 0 <= i < |stem| && stem[i] != '.' {
        var i :| 0 <= i < |stem| && stem[i] != '.';
        assert name[|stem|] == '.' && name[i] == stem[i] && name[|stem|..] == extension;
        assert forall j :: |stem| < j < |name| ==> name[j] == extension[1..][j - |stem| - 1];
        assert n == |stem|;
      }
    }
  }

  /** A path is accepted inside a directory exactly when it is relative, stays inside the directory, and has
      the extension that is asked for, if one is. */
  lemma PathInsideExactly(value: string, dir: string, suffix: string, field: string, path: string)
    requires suffix == "" || (suffix[0] == '.' && '.' !in suffix[1..])
    ensures PathInside(value, dir, suffix, field) == Ok(path) <==>
      && IsRelative(value) && StaysInside(Components(dir), Components(value))
      && (suffix == "" || HasExtension(Components(value), suffix)) && path == Written(value)
  {
    hide Components;
    hide RelativePath;
    hide Suffix;
    hide HasExtension;
    hide AsPosix;
    hide Written;
    RelativeExactly(value, field);
    if suffix != "" {
      SuffixExactly(Components(value), suffix);
    }
  }

  // ----- Every well-placed path is accepted -----

  lemma {:induction false} LastDotOf(stem: string, extension: string)
    requires '.' !in extension
    ensures LastDot(stem + "." + extension) == |stem|
  {
    var s := stem + "." + extension;
    if extension == "" {
      assert s[|s| - 1] == '.';
    } else {
      var shorter := extension[..|extension| - 1];
      assert s[..|s| - 1] == stem + "." + shorter;
      assert s[|s| - 1] == extension[|extension| - 1];
      LastDotOf(stem, shorter);
    }
  }

  lemma SuffixOf(dir: seq<string>, stem: string, extension: string)
    requires '.' !in extension && stem != "" && stem[0] != '.'
    ensures Suffix(dir + [stem + "." + extension]) == "." + extension
  {
    var name := stem + "." + extension;
    LastDotOf(stem, extension);
    assert name[0] == stem[0] && name[|stem|..] == "." + extension;
  }

  /** The components of a directory below `artifacts/runtime`, without steps upwards. */
  ghost predicate IsRuntimeDir(dir: seq<string>) {
    AllComponents(dir) && UnderRuntime(dir) && ".." !in dir
  }

  lemma NormalAccepted(parts: seq<string>, field: string)
    requires AllComponents(parts) && parts != [] && ".." !in parts
    ensures RelativePath(Join(parts), field) == Ok(Path("", parts)) && AsPosix(Path("", parts)) == Join(parts)
  {
    hide Components;
    ParseOfAsPosix(parts);
    JoinStarts(parts);
    assert "" + Join(parts) == Join(parts);
  }

  /** Every directory below `artifacts/runtime`, written in normal form, is accepted as it is. */
  lemma ArtifactDirAccepted(dir: seq<string>)
    requires IsRuntimeDir(dir)
    ensures ArtifactDir(Join(dir)) == Ok(Join(dir)) && Components(Join(dir)) == dir
  {
    hide Components;
    hide RelativePath;
    NormalAccepted(dir, "artifact_dir");
    ComponentsOfJoin(dir);
  }

  /** Every file directly in such a directory, with the demanded extension, is accepted as it is. */
  lemma FileAccepted(dir: seq<string>, stem: string, extension: string, field: string)
    requires IsRuntimeDir(dir) && IsComponent(stem + "." + extension)
    requires '.' !in extension && stem != "" && stem[0] != '.'
    ensures var file := Join(dir + [stem + "." + extension]);
      PathInside(file, Join(dir), "." + extension, field) == Ok(file)
  {
    hide Components;
    hide RelativePath;
    hide Suffix;
    hide IsComponent;
    var name := stem + "." + extension;
    var parts := dir + [name];
    assert name[0] == stem[0];
    assert ".." !in parts;
    NormalAccepted(parts, field);
    ArtifactDirAccepted(dir);
    SuffixOf(dir, stem, extension);
    assert parts[..|dir|] == dir;
  }

  function ExampleDir(): seq<string> {
    ["artifacts", "runtime", "run"]
  }

  lemma ExampleDirIsRuntimeDir()
    ensures IsRuntimeDir(ExampleDir())
  {}
}
