/** The benchmark artifact manifest: validation and the canonical form. */
module BenchmarkManifest {
  import opened Wrappers
  import opened Dicts
  import opened JsonText
  import opened Paths
  import opened Fields

  const SCHEMA := "vllm-mlx-benchmark-artifact-manifest/v1"
  const LOCAL_PORT_MIN := 20000
  const LOCAL_PORT_MAX := 50000

  /** The arguments of the builder, with the types the reader has checked. */
  datatype Parts = Parts(
    gitSha: string, command: seq<Json>, artifactDir: string, rawPath: string, summaryPath: string,
    modelId: string, modelRevision: string, host: Object, ports: Object, env: Object, scan: Object)

  // ----- Reading -----

  function ReadParts(m: Object): Result<Parts, ValueError> {
    if Get(m, "schema_version") != Some(Str(SCHEMA)) then Raised(ValueError("schema_version"))
    else
      var model :- MappingField(m, "model");
      var gitSha :- StringField(m, "git_sha");
      var command :- SequenceField(m, "command");
      var artifactDir :- StringField(m, "artifact_dir");
      var rawPath :- StringField(m, "raw_benchmark_path");
      var summaryPath :- StringField(m, "summary_path");
      var modelId :- NonEmptyString(Get(model, "id"), "model_id");
      var modelRevision :- NonEmptyString(Get(model, "revision"), "model_revision");
      var host :- MappingField(m, "host");
      var ports :- MappingField(m, "ports");
      var env :- MappingField(m, "env");
      var scan :- MappingField(m, "no_leak_scan");
      Ok(Parts(gitSha, command, artifactDir, rawPath, summaryPath, modelId, modelRevision, host, ports, env, scan))
  }

  // ----- Validating -----

  predicate IsEnvEntry(e: Entry<string, Json>) {
    !IsBlank(e.key) && e.value.Str? && !IsBlank(e.value.s)
  }

  function Env(env: Object): (r: Result<Object, ValueError>)
    ensures r.Ok? ==> r.value == env
  {
    var normalized :- NonEmptyMapping(env, "env");
    if exists i :: 0 <= i < |normalized| && !IsEnvEntry(normalized[i]) then Raised(ValueError("env"))
    else Ok(normalized)
  }

  function ScanOf(path: string): Object {
    [Entry("path", Str(path)), Entry("passed", Bool(true)), Entry("findings_count", Int(0))]
  }

  /** Only a passed scan without findings is accepted, and only its three fields are kept. */
  function NoLeakScan(scan: Object, artifactDir: string): Result<Object, ValueError> {
    var normalized :- NonEmptyMapping(scan, "no_leak_scan");
    var value :- NonEmptyString(Get(normalized, "path"), "no_leak_scan.path");
    var path :- PathInside(value, artifactDir, ".json", "no_leak_scan.path");
    if Get(normalized, "passed") != Some(Bool(true)) then Raised(ValueError("no_leak_scan"))
    else if Get(normalized, "findings_count") != Some(Int(0)) then Raised(ValueError("no_leak_scan"))
    else Ok(ScanOf(path))
  }

  function Validate(p: Parts): Result<Parts, ValueError> {
    var artifactDir :- ArtifactDir(p.artifactDir);
    var gitSha :- NonEmptyString(Some(Str(p.gitSha)), "git_sha");
    var command :- Command(p.command);
    var rawPath :- PathInside(p.rawPath, artifactDir, ".json", "raw_benchmark_path");
    var summaryPath :- PathInside(p.summaryPath, artifactDir, ".json", "summary_path");
    var modelId :- NonEmptyString(Some(Str(p.modelId)), "model_id");
    var modelRevision :- NonEmptyString(Some(Str(p.modelRevision)), "model_revision");
    var host :- Host(p.host);
    var ports :- Ports(p.ports, LOCAL_PORT_MIN, Some(LOCAL_PORT_MAX));
    var env :- Env(p.env);
    var scan :- NoLeakScan(p.scan, artifactDir);
    Ok(Parts(gitSha, command, artifactDir, rawPath, summaryPath, modelId, modelRevision, host, ports, env, scan))
  }

  // ----- Writing -----

  function ModelObject(p: Parts): Object {
    [Entry("id", Str(p.modelId)), Entry("revision", Str(p.modelRevision))]
  }

  function WriteParts(p: Parts): Object {
    [Entry("schema_version", Str(SCHEMA)), Entry("git_sha", Str(p.gitSha)), Entry("command", Arr(p.command)),
     Entry("artifact_dir", Str(p.artifactDir)), Entry("raw_benchmark_path", Str(p.rawPath)),
     Entry("summary_path", Str(p.summaryPath)), Entry("model", Obj(ModelObject(p))), Entry("host", Obj(p.host)),
     Entry("ports", Obj(p.ports)), Entry("env", Obj(p.env)), Entry("no_leak_scan", Obj(p.scan))]
  }

  function Build(p: Parts): Result<Object, ValueError> {
    var valid :- Validate(p);
    Ok(WriteParts(valid))
  }

  function Canonical(m: Object): Result<Object, ValueError> {
    var p :- ReadParts(m);
    Build(p)
  }

  // ----- The canonical form is stable -----

  /** The string fields that reading demands to be non-blank. */
  predicate Readable(p: Parts) {
    && !IsBlank(p.gitSha) && !IsBlank(p.artifactDir) && !IsBlank(p.rawPath) && !IsBlank(p.summaryPath)
    && !IsBlank(p.modelId) && !IsBlank(p.modelRevision)
  }

  lemma WrittenDistinct(p: Parts)
    ensures Distinct(WriteParts(p))
  {}

  lemma WrittenAt(p: Parts, i: nat)
    requires i < 11
    ensures Get(WriteParts(p), WriteParts(p)[i].key) == Some(WriteParts(p)[i].value)
  {
    hide WriteParts;
    WrittenDistinct(p);
    WrittenLength(p);
    GetAt(WriteParts(p), i);
  }

  lemma WrittenLength(p: Parts)
    ensures |WriteParts(p)| == 11
  {}

  lemma WrittenModel(p: Parts)
    ensures Get(ModelObject(p), "id") == Some(Str(p.modelId))
    ensures Get(ModelObject(p), "revision") == Some(Str(p.modelRevision))
  {
    GetAt(ModelObject(p), 0);
    GetAt(ModelObject(p), 1);
  }

  /** Reading a written manifest gives back its parts. */
  lemma ReadWritten(p: Parts)
    requires Readable(p)
    ensures ReadParts(WriteParts(p)) == Ok(p)
  {
    hide Get;
    hide IsBlank;
    WrittenModel(p);
    WrittenAt(p, 0);
    WrittenAt(p, 1);
    WrittenAt(p, 2);
    WrittenAt(p, 3);
    WrittenAt(p, 4);
    WrittenAt(p, 5);
    WrittenAt(p, 6);
    WrittenAt(p, 7);
    WrittenAt(p, 8);
    WrittenAt(p, 9);
    WrittenAt(p, 10);
  }

  lemma ScanStable(scan: Object, dir: string)
    requires NoLeakScan(scan, dir).Ok? && UnderRuntime(Components(dir))
    ensures var s := NoLeakScan(scan, dir).value; NoLeakScan(s, dir) == Ok(s)
  {
    hide PathInside;
    hide UnderRuntime;
    var value := NonEmptyString(Get(scan, "path"), "no_leak_scan.path").value;
    var path := PathInside(value, dir, ".json", "no_leak_scan.path").value;
    PathInsideStable(value, dir, ".json", "no_leak_scan.path");
    NotBlank(path);
    var s := ScanOf(path);
    GetAt(s, 0);
    GetAt(s, 1);
    GetAt(s, 2);
  }

  /** Where the stored paths of a canonical manifest lie. */
  ghost predicate PathsInside(v: Parts) {
    && UnderRuntime(Components(v.artifactDir)) && ".." !in Components(v.artifactDir)
    && StaysInside(Components(v.artifactDir), Components(v.rawPath))
    && StaysInside(Components(v.artifactDir), Components(v.summaryPath))
  }

  /** What validation checks, field by field, and what it makes of each. */
  ghost predicate Checks(p: Parts, v: Parts) {
    && ArtifactDir(p.artifactDir) == Ok(v.artifactDir)
    && !IsBlank(p.gitSha) && v.gitSha == p.gitSha
    && Command(p.command).Ok? && v.command == p.command
    && PathInside(p.rawPath, v.artifactDir, ".json", "raw_benchmark_path") == Ok(v.rawPath)
    && PathInside(p.summaryPath, v.artifactDir, ".json", "summary_path") == Ok(v.summaryPath)
    && !IsBlank(p.modelId) && v.modelId == p.modelId
    && !IsBlank(p.modelRevision) && v.modelRevision == p.modelRevision
    && Host(p.host).Ok? && v.host == p.host
    && Ports(p.ports, LOCAL_PORT_MIN, Some(LOCAL_PORT_MAX)).Ok? && v.ports == p.ports
    && Env(p.env).Ok? && v.env == p.env
    && NoLeakScan(p.scan, v.artifactDir) == Ok(v.scan)
  }

  lemma ValidateExactly(p: Parts, v: Parts)
    ensures Validate(p) == Ok(v) <==> Checks(p, v)
  {
    hide ArtifactDir;
    hide PathInside;
    hide NoLeakScan;
    hide Command;
    hide Host;
    hide Ports;
    hide Env;
    hide IsBlank;
  }

  /** Validating a validated manifest returns it unchanged, and it can be read again. */
  lemma ValidateStable(p: Parts)
    requires Validate(p).Ok?
    ensures var v := Validate(p).value; Validate(v) == Ok(v) && Readable(v) && PathsInside(v)
  {
    hide Validate;
    hide ArtifactDir;
    hide PathInside;
    hide NoLeakScan;
    hide Command;
    hide Host;
    hide Ports;
    hide Env;
    hide IsBlank;
    hide UnderRuntime;
    hide StaysInside;
    var v := Validate(p).value;
    ValidateExactly(p, v);
    ValidateExactly(v, v);
    ArtifactDirStable(p.artifactDir);
    PathInsideStable(p.rawPath, v.artifactDir, ".json", "raw_benchmark_path");
    PathInsideStable(p.summaryPath, v.artifactDir, ".json", "summary_path");
    ScanStable(p.scan, v.artifactDir);
    NotBlank(v.artifactDir);
    NotBlank(v.rawPath);
    NotBlank(v.summaryPath);
  }

  /** The canonical form is a retraction: whenever a manifest is accepted, its canonical form is
      accepted and is its own canonical form. */
  lemma CanonicalIsRetraction(m: Object)
    requires Canonical(m).Ok?
    ensures Canonical(Canonical(m).value) == Canonical(m)
  {
    hide ReadParts;
    hide Validate;
    hide WriteParts;
    var p := ReadParts(m).value;
    ValidateStable(p);
    ReadWritten(Validate(p).value);
  }

  /** Every stored path keeps the components of the artifact directory as a prefix. */
  lemma CanonicalPathsInside(m: Object)
    requires Canonical(m).Ok?
    ensures exists v :: Canonical(m).value == WriteParts(v) && PathsInside(v)
  {
    hide ReadParts;
    hide Validate;
    hide WriteParts;
    hide PathsInside;
    var p := ReadParts(m).value;
    ValidateStable(p);
    assert Canonical(m).value == WriteParts(Validate(p).value);
  }

  /** The canonical manifests are exactly the written forms of parts that pass their checks as they are. */
  lemma CanonicalExactly(m: Object)
    ensures Canonical(m) == Ok(m) <==> exists v :: m == WriteParts(v) && Checks(v, v)
  {
    hide ReadParts;
    hide Validate;
    hide WriteParts;
    hide Checks;
    if Canonical(m) == Ok(m) {
      var p := ReadParts(m).value;
      ValidateStable(p);
      var v := Validate(p).value;
      ValidateExactly(v, v);
      assert m == WriteParts(v);
    }
    if v :| m == WriteParts(v) && Checks(v, v) {
      ValidateExactly(v, v);
      ValidateStable(v);
      ReadWritten(v);
    }
  }

  // ----- A manifest that is accepted -----

  function ExampleParts(raw: string, summary: string, scan: string): Parts {
    Parts("abc", [Str("run")], Join(ExampleDir()), raw, summary, "m", "r",
          [Entry("os", Str("macos")), Entry("chip", Str("m4")), Entry("memory_gib", Int(24))],
          [Entry("api", Int(LOCAL_PORT_MIN))], [Entry("k", Str("v"))], ScanOf(scan))
  }

  lemma FieldsAccepted(p: Parts)
    requires exists raw, summary, scan :: p == ExampleParts(raw, summary, scan)
    ensures !IsBlank(p.gitSha) && !IsBlank(p.modelId) && !IsBlank(p.modelRevision)
    ensures Command(p.command).Ok? && Ports(p.ports, LOCAL_PORT_MIN, Some(LOCAL_PORT_MAX)).Ok? && Env(p.env).Ok?
    ensures Host(p.host).Ok?
  {
    hide IsBlank;
    hide ExampleDir;
    NotBlank(p.gitSha);
    NotBlank(p.modelId);
    NotBlank(p.modelRevision);
    NotBlank("k");
    NotBlank("v");
    var keys := Keys(p.host);
    assert keys[0] == "os" && keys[1] == "chip" && keys[2] == "memory_gib";
  }

  lemma ScanAccepted(path: string, dir: string)
    requires PathInside(path, dir, ".json", "no_leak_scan.path") == Ok(path) && !IsBlank(path)
    ensures NoLeakScan(ScanOf(path), dir) == Ok(ScanOf(path))
  {
    hide PathInside;
    hide IsBlank;
    var s := ScanOf(path);
    GetAt(s, 0);
    GetAt(s, 1);
    GetAt(s, 2);
  }

  /** A complete manifest that is accepted and canonical: the laws above are about something. */
  lemma ExampleAccepted()
    ensures exists v :: Checks(v, v) && Canonical(WriteParts(v)) == Ok(WriteParts(v))
  {
    hide Canonical;
    hide PathInside;
    hide ArtifactDir;
    hide Validate;
    hide IsBlank;
    hide NoLeakScan;
    hide Command;
    hide Host;
    hide Ports;
    hide Env;
    hide Join;
    hide ExampleDir;
    var dir := ExampleDir();
    ExampleDirIsRuntimeDir();
    var file := Join(dir + ["a" + "." + "json"]);
    assert "." + "json" == ".json";
    FileAccepted(dir, "a", "json", "raw_benchmark_path");
    FileAccepted(dir, "a", "json", "summary_path");
    FileAccepted(dir, "a", "json", "no_leak_scan.path");
    ArtifactDirAccepted(dir);
    var v := ExampleParts(file, file, file);
    FieldsAccepted(v);
    FileNotBlank(dir, "a" + "." + "json");
    ScanAccepted(file, v.artifactDir);
    CanonicalExactly(WriteParts(v));
  }

  // ----- Exactly which manifests are accepted -----

  ghost predicate IsEnv(env: Object) {
    env != [] && forall e :: e in env ==> !OnlySpace(e.key) && e.value.Str? && !OnlySpace(e.value.s)
  }

  /** A scan that passed and found nothing, with its report inside the artifact directory. */
  ghost predicate IsPassedScan(scan: Object, dir: string) {
    && IsFileIn(TextOf(scan, "path"), dir, ".json")
    && Get(scan, "passed") == Some(Bool(true)) && Get(scan, "findings_count") == Some(Int(0))
  }

  /** What a manifest must hold, field by field. */
  ghost predicate IsAcceptable(m: Object) {
    var model, dir, scan := ObjectOf(m, "model"), TextOf(m, "artifact_dir"), ObjectOf(m, "no_leak_scan");
    && Get(m, "schema_version") == Some(Str("vllm-mlx-benchmark-artifact-manifest/v1"))
    && HasText(m, "git_sha") && HasText(model, "id") && HasText(model, "revision")
    && IsCommand(ItemsOf(m, "command")) && IsArtifactDir(dir)
    && IsFileIn(TextOf(m, "raw_benchmark_path"), dir, ".json") && IsFileIn(TextOf(m, "summary_path"), dir, ".json")
    && IsHost(ObjectOf(m, "host")) && ArePorts(ObjectOf(m, "ports"), 20000, Some(50000))
    && IsEnv(ObjectOf(m, "env")) && IsPassedScan(scan, dir)
  }

  function PartsOf(m: Object): Parts {
    Parts(TextOf(m, "git_sha"), ItemsOf(m, "command"), TextOf(m, "artifact_dir"), TextOf(m, "raw_benchmark_path"),
          TextOf(m, "summary_path"), TextOf(ObjectOf(m, "model"), "id"), TextOf(ObjectOf(m, "model"), "revision"),
          ObjectOf(m, "host"), ObjectOf(m, "ports"), ObjectOf(m, "env"), ObjectOf(m, "no_leak_scan"))
  }

  /** The paths as they are stored: written out again from their components. */
  function NormalParts(p: Parts): Parts {
    p.(artifactDir := Join(Components(p.artifactDir)), rawPath := Written(p.rawPath),
       summaryPath := Written(p.summaryPath), scan := ScanOf(Written(TextOf(p.scan, "path"))))
  }

  lemma EnvExactly(env: Object)
    ensures Env(env).Ok? <==> IsEnv(env)
  {
    hide IsBlank;
    hide OnlySpace;
    forall s
      ensures IsBlank(s) <==> OnlySpace(s)
    {
      BlankExactly(s);
    }
    if Env(env).Ok? {
      forall e | e in env
        ensures IsEnvEntry(e)
      {
        var i :| 0 <= i < |env| && env[i] == e;
      }
    }
    if IsEnv(env) {
      forall i | 0 <= i < |env|
        ensures IsEnvEntry(env[i])
      {
        assert env[i] in env;
      }
    }
  }

  lemma NothingIsNoFile(dir: string)
    ensures !IsFileIn("", dir, ".json")
  {}

  lemma JsonSuffix()
    ensures ".json" != "" && ".json"[0] == '.' && '.' !in ".json"[1..]
  {
    assert ".json"[1..] == "json";
  }

  lemma ScanExactly(scan: Object, dir: string)
    requires IsArtifactDir(dir)
    ensures NoLeakScan(scan, Join(Components(dir))).Ok? <==> IsPassedScan(scan, dir)
    ensures NoLeakScan(scan, Join(Components(dir))).Ok? ==>
      NoLeakScan(scan, Join(Components(dir))) == Ok(ScanOf(Written(TextOf(scan, "path"))))
  {
    hide Components;
    hide PathInside;
    hide Join;
    hide IsFileIn;
    hide IsArtifactDir;
    hide IsBlank;
    hide OnlySpace;
    hide Written;
    hide ScanOf;
    var path, written := TextOf(scan, "path"), Join(Components(dir));
    JsonSuffix();
    FileExactly(path, dir, written, ".json", "no_leak_scan.path");
    BlankExactly(path);
    NothingIsNoFile(dir);
    NothingIsBlank();
    if scan == [] {
      GetMissing(scan, "passed");
    }
  }

  lemma ReadsExactly(m: Object)
    ensures IsAcceptable(m) ==> ReadParts(m).Ok?
    ensures ReadParts(m).Ok? ==>
      && ReadParts(m).value == PartsOf(m) && Get(m, "schema_version") == Some(Str(SCHEMA))
      && HasText(m, "git_sha") && HasText(ObjectOf(m, "model"), "id") && HasText(ObjectOf(m, "model"), "revision")
  {
    hide IsBlank;
    hide OnlySpace;
    hide Get;
    hide Components;
    hide IsCommand;
    hide Written;
    hide StringField;
    StringFieldExactly(m, "git_sha");
    StringFieldExactly(m, "artifact_dir");
    StringFieldExactly(m, "raw_benchmark_path");
    StringFieldExactly(m, "summary_path");
    ModelFieldsExactly(ObjectOf(m, "model"));
    NoObject();
    if IsAcceptable(m) {
      AcceptableTexts(m);
    }
  }

  lemma ModelFieldsExactly(model: Object)
    ensures NonEmptyString(Get(model, "id"), "model_id")
         == if HasText(model, "id") then Ok(TextOf(model, "id")) else Raised(ValueError("model_id"))
    ensures NonEmptyString(Get(model, "revision"), "model_revision")
         == if HasText(model, "revision") then Ok(TextOf(model, "revision")) else Raised(ValueError("model_revision"))
  {
    hide IsBlank;
    hide OnlySpace;
    hide Get;
    BlankExactly(TextOf(model, "id"));
    BlankExactly(TextOf(model, "revision"));
    NothingIsBlank();
  }

  /** Nothing that a manifest must hold is found where there is no object or array. */
  lemma NoObject()
    ensures !IsHost([]) && !ArePorts([], 20000, Some(50000)) && !IsEnv([]) && !IsCommand([])
    ensures Get<string, Json>([], "passed") == None && !HasText([], "id")
  {}

  lemma AcceptableTexts(m: Object)
    requires IsAcceptable(m)
    ensures HasText(m, "artifact_dir") && HasText(m, "raw_benchmark_path") && HasText(m, "summary_path")
  {
    hide Components;
    hide Join;
    hide IsBlank;
    hide OnlySpace;
    var dir := TextOf(m, "artifact_dir");
    JsonSuffix();
    DirExactly(dir);
    FileExactly(TextOf(m, "raw_benchmark_path"), dir, Join(Components(dir)), ".json", "raw_benchmark_path");
    FileExactly(TextOf(m, "summary_path"), dir, Join(Components(dir)), ".json", "summary_path");
  }

  /** Which parts validate, and to what. */
  lemma ValidatesExactly(p: Parts)
    ensures Validate(p).Ok? <==>
      && IsArtifactDir(p.artifactDir) && !OnlySpace(p.gitSha) && IsCommand(p.command)
      && IsFileIn(p.rawPath, p.artifactDir, ".json") && IsFileIn(p.summaryPath, p.artifactDir, ".json")
      && !OnlySpace(p.modelId) && !OnlySpace(p.modelRevision) && IsHost(p.host)
      && ArePorts(p.ports, 20000, Some(50000)) && IsEnv(p.env) && IsPassedScan(p.scan, p.artifactDir)
    ensures Validate(p).Ok? ==> Validate(p).value == NormalParts(p)
  {
    hide Components;
    hide Join;
    hide Written;
    hide ArtifactDir;
    hide PathInside;
    hide NoLeakScan;
    hide Command;
    hide Host;
    hide Ports;
    hide Env;
    hide IsBlank;
    hide OnlySpace;
    hide IsArtifactDir;
    hide IsFileIn;
    hide IsCommand;
    hide IsHost;
    hide ArePorts;
    hide IsEnv;
    hide IsPassedScan;
    var written := Join(Components(p.artifactDir));
    JsonSuffix();
    DirExactly(p.artifactDir);
    CommandExactly(p.command);
    HostExactly(p.host);
    PortsExactly(p.ports, LOCAL_PORT_MIN, Some(LOCAL_PORT_MAX));
    EnvExactly(p.env);
    BlankExactly(p.gitSha);
    BlankExactly(p.modelId);
    BlankExactly(p.modelRevision);
    if IsArtifactDir(p.artifactDir) {
      FileExactly(p.rawPath, p.artifactDir, written, ".json", "raw_benchmark_path");
      FileExactly(p.summaryPath, p.artifactDir, written, ".json", "summary_path");
      ScanExactly(p.scan, p.artifactDir);
    }
  }

  /** A manifest is accepted exactly when every field holds what it must; in particular only with a scan
      that passed. */
  lemma AcceptedExactly(m: Object)
    ensures Canonical(m).Ok? <==> IsAcceptable(m)
    ensures Canonical(m).Ok? ==> Canonical(m) == Ok(WriteParts(NormalParts(PartsOf(m))))
  {
    hide Get;
    hide OnlySpace;
    hide ReadParts;
    hide Validate;
    hide WriteParts;
    hide NormalParts;
    hide IsArtifactDir;
    hide IsFileIn;
    hide IsCommand;
    hide IsHost;
    hide ArePorts;
    hide IsEnv;
    hide IsPassedScan;
    ReadsExactly(m);
    ValidatesExactly(PartsOf(m));
  }

  /** The canonical form keeps what identifies the run, and holds the paths written out again, and the three
      fields of the passed scan. */
  lemma CanonicalSays(m: Object)
    requires Canonical(m).Ok?
    ensures var c := Canonical(m).value;
      && TextOf(c, "schema_version") == "vllm-mlx-benchmark-artifact-manifest/v1"
      && TextOf(c, "git_sha") == TextOf(m, "git_sha") && ItemsOf(c, "command") == ItemsOf(m, "command")
      && TextOf(c, "artifact_dir") == Join(Components(TextOf(m, "artifact_dir")))
      && TextOf(c, "raw_benchmark_path") == Written(TextOf(m, "raw_benchmark_path"))
      && TextOf(c, "summary_path") == Written(TextOf(m, "summary_path"))
      && TextOf(ObjectOf(c, "model"), "id") == TextOf(ObjectOf(m, "model"), "id")
      && TextOf(ObjectOf(c, "model"), "revision") == TextOf(ObjectOf(m, "model"), "revision")
      && ObjectOf(c, "host") == ObjectOf(m, "host") && ObjectOf(c, "ports") == ObjectOf(m, "ports")
      && ObjectOf(c, "env") == ObjectOf(m, "env")
      && ObjectOf(c, "no_leak_scan")
         == [Entry("path", Str(Written(TextOf(ObjectOf(m, "no_leak_scan"), "path")))), Entry("passed", Bool(true)),
             Entry("findings_count", Int(0))]
  {
    hide Get;
    hide Components;
    hide Join;
    hide Written;
    hide Canonical;
    hide WriteParts;
    hide ObjectOf;
    hide TextOf;
    hide ItemsOf;
    AcceptedExactly(m);
    WrittenSays(NormalParts(PartsOf(m)));
  }

  lemma WrittenSays(p: Parts)
    ensures var c := WriteParts(p);
      && TextOf(c, "schema_version") == "vllm-mlx-benchmark-artifact-manifest/v1"
      && TextOf(c, "git_sha") == p.gitSha && ItemsOf(c, "command") == p.command
      && TextOf(c, "artifact_dir") == p.artifactDir && TextOf(c, "raw_benchmark_path") == p.rawPath
      && TextOf(c, "summary_path") == p.summaryPath
      && TextOf(ObjectOf(c, "model"), "id") == p.modelId && TextOf(ObjectOf(c, "model"), "revision") == p.modelRevision
      && ObjectOf(c, "host") == p.host && ObjectOf(c, "ports") == p.ports && ObjectOf(c, "env") == p.env
      && ObjectOf(c, "no_leak_scan") == p.scan
  {
    hide Get;
    WrittenModel(p);
    WrittenAt(p, 0);
    WrittenAt(p, 1);
    WrittenAt(p, 2);
    WrittenAt(p, 3);
    WrittenAt(p, 4);
    WrittenAt(p, 5);
    WrittenAt(p, 6);
    WrittenAt(p, 7);
    WrittenAt(p, 8);
    WrittenAt(p, 9);
    WrittenAt(p, 10);
  }
}
