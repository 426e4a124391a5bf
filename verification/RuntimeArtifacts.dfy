/** Runtime evidence: the manifest, the execution record that joins it to a preflight report, and
    the canonical form of such a record. */
module RuntimeArtifacts {
  import opened Wrappers
  import opened Dicts
  import opened JsonText
  import opened Paths
  import opened Fields
  import Guard = RuntimeGuard

  const MANIFEST_SCHEMA := "runtime-evidence-manifest/v1"
  const RECORD_SCHEMA := "runtime-execution-record/v1"

  // ----- The evidence manifest -----

  /** The arguments of the manifest builder. */
  datatype Evidence = Evidence(
    gitSha: string, command: seq<Json>, artifactDir: string, logPath: string, host: Object,
    backendId: string, modelId: string, runtimeConfig: Object, ports: Object)

  function BackendObject(e: Evidence): Object {
    [Entry("id", Str(e.backendId)), Entry("model_id", Str(e.modelId))]
  }

  function WriteEvidence(e: Evidence): Object {
    [Entry("schema_version", Str(MANIFEST_SCHEMA)), Entry("git_sha", Str(e.gitSha)), Entry("command", Arr(e.command)),
     Entry("artifact_dir", Str(e.artifactDir)), Entry("log_path", Str(e.logPath)), Entry("host", Obj(e.host)),
     Entry("backend", Obj(BackendObject(e))), Entry("runtime_config", Obj(e.runtimeConfig)),
     Entry("ports", Obj(e.ports))]
  }

  function ValidateEvidence(e: Evidence): Result<Evidence, ValueError> {
    var gitSha :- NonEmptyString(Some(Str(e.gitSha)), "git_sha");
    var backendId :- NonEmptyString(Some(Str(e.backendId)), "backend_id");
    var modelId :- NonEmptyString(Some(Str(e.modelId)), "model_id");
    var command :- Command(e.command);
    var artifactDir :- ArtifactDir(e.artifactDir);
    var logPath :- PathInside(e.logPath, artifactDir, ".log", "log_path");
    var host :- Host(e.host);
    var runtimeConfig :- NonEmptyMapping(e.runtimeConfig, "runtime_config");
    var ports :- Ports(e.ports, 1, None);
    Ok(Evidence(gitSha, command, artifactDir, logPath, host, backendId, modelId, runtimeConfig, ports))
  }

  function BuildEvidenceManifest(e: Evidence): Result<Object, ValueError> {
    var valid :- ValidateEvidence(e);
    Ok(WriteEvidence(valid))
  }

  /** Checks a manifest without changing it. */
  function CheckManifest(m: Object): Result<(), ValueError> {
    var backend :- MappingField(m, "backend");
    var _ :- StringField(m, "git_sha");
    var parts :- SequenceField(m, "command");
    var _ :- Command(parts);
    var dir :- StringField(m, "artifact_dir");
    var artifactDir :- ArtifactDir(dir);
    var log :- StringField(m, "log_path");
    var _ :- PathInside(log, artifactDir, ".log", "log_path");
    var host :- MappingField(m, "host");
    var _ :- Host(host);
    var _ :- NonEmptyString(Get(backend, "id"), "backend_id");
    var _ :- NonEmptyString(Get(backend, "model_id"), "model_id");
    var config :- MappingField(m, "runtime_config");
    var _ :- NonEmptyMapping(config, "runtime_config");
    var ports :- MappingField(m, "ports");
    var _ :- Ports(ports, 1, None);
    Ok(())
  }

  // ----- The execution record -----

  /** The report and the manifest name the same backend and the same model. */
  function CheckIds(report: Object, manifest: Object): Result<(), ValueError> {
    var backend :- MappingField(manifest, "backend");
    if Get(report, "backend_id") != Get(backend, "id") then Raised(ValueError("backend id"))
    else if Get(report, "model_id") != Get(backend, "model_id") then Raised(ValueError("model id"))
    else Ok(())
  }

  datatype Verdict = Verdict(allowed: bool, reasonCode: string)

  function ReadDecision(report: Object): Result<Verdict, ValueError> {
    var decision :- MappingField(report, "decision");
    match Get<string, Json>(decision, "allowed")
    case Some(Bool(allowed)) =>
      var reasonCode :- NonEmptyString(Get(decision, "reason_code"), "decision.reason_code");
      Ok(Verdict(allowed, reasonCode))
    case _ => Raised(ValueError("decision.allowed"))
  }

  function CheckSchema(source: Object, schema: string, field: string): Result<(), ValueError> {
    if Get(source, "schema_version") == Some(Str(schema)) then Ok(()) else Raised(ValueError(field))
  }

  function WriteRecord(v: Verdict, report: Object, manifest: Object): Object {
    [Entry("schema_version", Str(RECORD_SCHEMA)), Entry("can_execute", Bool(v.allowed)),
     Entry("reason_code", Str(v.reasonCode)), Entry("preflight_report", Obj(report)),
     Entry("evidence_manifest", Obj(manifest))]
  }

  function BuildRecord(report: Object, manifest: Object): Result<Object, ValueError> {
    var _ :- CheckSchema(report, Guard.REPORT_SCHEMA, "preflight_report");
    var _ :- CheckSchema(manifest, MANIFEST_SCHEMA, "evidence_manifest");
    var _ :- CheckManifest(manifest);
    var _ :- CheckIds(report, manifest);
    var verdict :- ReadDecision(report);
    Ok(WriteRecord(verdict, report, manifest))
  }

  /** Equality with a flag: the truth values equal the numbers 1 and 0. Which literals of numbers with a
      fraction or an exponent equal an integer is a parameter. */
  predicate EqualsFlag(value: Option<Json>, flag: bool, equals: (string, int) -> bool) {
    var n := if flag then 1 else 0;
    match value
    case Some(Bool(b)) => b == flag
    case Some(Int(m)) => m == n
    case Some(Float(literal)) => equals(literal, n)
    case _ => false
  }

  function Canonical(record: Object, equals: (string, int) -> bool): Result<Object, ValueError> {
    var _ :- CheckSchema(record, RECORD_SCHEMA, "record");
    var report :- MappingField(record, "preflight_report");
    var manifest :- MappingField(record, "evidence_manifest");
    var canonical :- BuildRecord(report, manifest);
    if !EqualsFlag(Get(record, "can_execute"), Get(canonical, "can_execute") == Some(Bool(true)), equals)
    then Raised(ValueError("can_execute"))
    else if Get(record, "reason_code") != Get(canonical, "reason_code") then Raised(ValueError("reason_code"))
    else Ok(canonical)
  }

  // ----- The canonical form is stable -----

  lemma RecordFields(v: Verdict, report: Object, manifest: Object)
    ensures var r := WriteRecord(v, report, manifest);
      && Get(r, "schema_version") == Some(Str(RECORD_SCHEMA))
      && Get(r, "can_execute") == Some(Bool(v.allowed)) && Get(r, "reason_code") == Some(Str(v.reasonCode))
      && Get(r, "preflight_report") == Some(Obj(report)) && Get(r, "evidence_manifest") == Some(Obj(manifest))
  {
    var r := WriteRecord(v, report, manifest);
    assert Distinct(r);
    GetAt(r, 0);
    GetAt(r, 1);
    GetAt(r, 2);
    GetAt(r, 3);
    GetAt(r, 4);
  }

  /** A built record is a fixed point of the canonicaliser. */
  lemma BuiltIsFixed(report: Object, manifest: Object, equals: (string, int) -> bool)
    requires BuildRecord(report, manifest).Ok?
    ensures Canonical(BuildRecord(report, manifest).value, equals) == BuildRecord(report, manifest)
  {
    hide CheckManifest;
    hide CheckIds;
    hide Get;
    hide WriteRecord;
    RecordFields(ReadDecision(report).value, report, manifest);
    hide ReadDecision;
  }

  /** The canonical form is a retraction. */
  lemma CanonicalIsRetraction(record: Object, equals: (string, int) -> bool)
    requires Canonical(record, equals).Ok?
    ensures Canonical(Canonical(record, equals).value, equals) == Canonical(record, equals)
  {
    hide BuildRecord;
    var report := MappingField(record, "preflight_report").value;
    var manifest := MappingField(record, "evidence_manifest").value;
    assert Canonical(record, equals) == BuildRecord(report, manifest);
    BuiltIsFixed(report, manifest, equals);
  }

  /** The paths of a checked manifest; the record keeps them as they were written. */
  lemma CheckedPaths(m: Object)
    requires CheckManifest(m).Ok?
    ensures StringField(m, "artifact_dir").Ok? && StringField(m, "log_path").Ok?
    ensures var dir, log := StringField(m, "artifact_dir").value, StringField(m, "log_path").value;
      ArtifactDir(dir).Ok? && PathInside(log, ArtifactDir(dir).value, ".log", "log_path").Ok?
  {
    hide StringField;
    hide ArtifactDir;
    hide PathInside;
    hide Command;
    hide Host;
    hide Ports;
  }

  lemma CanonicalFields(record: Object, equals: (string, int) -> bool)
    requires Canonical(record, equals).Ok?
    ensures var r := Canonical(record, equals).value;
      && MappingField(r, "evidence_manifest").Ok?
      && MappingField(r, "evidence_manifest") == MappingField(record, "evidence_manifest")
      && CheckManifest(MappingField(r, "evidence_manifest").value).Ok?
      && Get(r, "can_execute").Some? && Get(r, "can_execute").value.Bool?
      && Get(r, "reason_code").Some? && Get(r, "reason_code").value.Str?
      && Get(r, "reason_code") == Get(record, "reason_code")
  {
    hide CheckManifest;
    hide CheckIds;
    hide ReadDecision;
    hide Get;
    var report := MappingField(record, "preflight_report").value;
    var manifest := MappingField(record, "evidence_manifest").value;
    RecordFields(ReadDecision(report).value, report, manifest);
    hide WriteRecord;
  }

  // ----- From a preflight to a record -----

  lemma ReportFields(p: Guard.Plan, number: real -> Json)
    ensures var r := Guard.BuildReport(p, number);
      && Get(r, "schema_version") == Some(Str(Guard.REPORT_SCHEMA))
      && Get(r, "backend_id") == Some(Str(p.backendId)) && Get(r, "model_id") == Some(Str(p.modelId))
      && Get(r, "explicitly_authorized") == Some(Bool(p.explicitlyAuthorized))
      && Get(r, "memory_gib") == Some(Obj(Guard.MemoryObject(p, number)))
      && Get(r, "decision") == Some(Obj(Guard.DecisionObject(Guard.Evaluate(p))))
  {
    hide Guard.Evaluate;
    hide Guard.MemoryObject;
    hide Guard.DecisionObject;
    var r := Guard.BuildReport(p, number);
    assert Distinct(r);
    GetAt(r, 0);
    GetAt(r, 1);
    GetAt(r, 2);
    GetAt(r, 3);
    GetAt(r, 4);
    GetAt(r, 5);
  }

  lemma DecisionFields(d: Guard.Decision)
    ensures var o := Guard.DecisionObject(d);
      && Get(o, "allowed") == Some(Bool(d.allowed)) && Get(o, "reason_code") == Some(Str(Guard.Code(d.reason)))
      && Get(o, "message") == Some(Str(Guard.Message(d.reason)))
  {
    var o := Guard.DecisionObject(d);
    assert Distinct(o);
    GetAt(o, 0);
    GetAt(o, 1);
    GetAt(o, 2);
  }

  /** Every number under its name, and the total rounded to thousandths. */
  ghost predicate SaysMemory(m: Object, p: Guard.Plan, number: real -> Json) {
    var sum := p.modelWeightsGib + p.kvCacheGib + p.runtimeOverheadGib + p.serviceOverheadGib;
    && Get(m, "model_weights") == Some(number(p.modelWeightsGib))
    && Get(m, "kv_cache") == Some(number(p.kvCacheGib))
    && Get(m, "runtime_overhead") == Some(number(p.runtimeOverheadGib))
    && Get(m, "service_overhead") == Some(number(p.serviceOverheadGib))
    && Get(m, "estimated_total") == Some(number(Guard.Round3(sum)))
    && Get(m, "ceiling") == Some(number(p.memoryCeilingGib))
  }

  lemma MemoryFields(p: Guard.Plan, number: real -> Json)
    ensures SaysMemory(Guard.MemoryObject(p, number), p, number)
  {
    assert Guard.Evaluate(p).memoryCeilingGib == p.memoryCeilingGib;
    assert Guard.Evaluate(p).estimatedTotalGib == Guard.Round3(Guard.TrueTotal(p));
    hide Guard.Evaluate;
    hide Guard.Round3;
    var m := Guard.MemoryObject(p, number);
    assert Distinct(m);
    GetAt(m, 0);
    GetAt(m, 1);
    GetAt(m, 2);
    GetAt(m, 3);
    GetAt(m, 4);
    GetAt(m, 5);
  }

  /** The report of a plan holds its authorisation, its numbers and the message of the decision. */
  lemma ReportSays(p: Guard.Plan, number: real -> Json)
    ensures var r := Guard.BuildReport(p, number);
      && Get(r, "explicitly_authorized") == Some(Bool(p.explicitlyAuthorized))
      && (exists m :: Get(r, "memory_gib") == Some(Obj(m)) && SaysMemory(m, p, number))
      && (exists d :: Get(r, "decision") == Some(Obj(d))
           && Get(d, "message") == Some(Str(Guard.Message(Guard.Evaluate(p).reason))))
  {
    hide *;
    ReportFields(p, number);
    MemoryFields(p, number);
    DecisionFields(Guard.Evaluate(p));
  }

  lemma CodesNotBlank(r: Guard.Reason)
    ensures !IsBlank(Guard.Code(r))
  {
    hide IsBlank;
    NotBlank(Guard.Code(r));
  }

  /** Reading the report of a plan gives back the guard's decision. */
  lemma DecisionOfReport(p: Guard.Plan, number: real -> Json)
    ensures var d := Guard.Evaluate(p);
      ReadDecision(Guard.BuildReport(p, number)) == Ok(Verdict(d.allowed, Guard.Code(d.reason)))
  {
    hide Guard.Evaluate;
    hide Guard.BuildReport;
    hide Guard.DecisionObject;
    hide Get;
    hide IsBlank;
    ReportFields(p, number);
    DecisionFields(Guard.Evaluate(p));
    CodesNotBlank(Guard.Evaluate(p).reason);
  }

  /** The manifest passes its checks and names the plan's backend and model. */
  ghost predicate Matches(p: Guard.Plan, manifest: Object) {
    && Get(manifest, "schema_version") == Some(Str(MANIFEST_SCHEMA))
    && CheckManifest(manifest).Ok?
    && MappingField(manifest, "backend").Ok?
    && Get(MappingField(manifest, "backend").value, "id") == Some(Str(p.backendId))
    && Get(MappingField(manifest, "backend").value, "model_id") == Some(Str(p.modelId))
  }

  /** A guard report and a manifest make a record exactly when they match, and that record carries the
      guard's decision and is a fixed point of the canonicaliser. */
  lemma PreflightToRecord(p: Guard.Plan, number: real -> Json, manifest: Object, equals: (string, int) -> bool)
    ensures var record := BuildRecord(Guard.BuildReport(p, number), manifest);
      && (record.Ok? <==> Matches(p, manifest))
      && (record.Ok? ==>
          && Get(record.value, "can_execute") == Some(Bool(Guard.Evaluate(p).allowed))
          && Get(record.value, "reason_code") == Some(Str(Guard.Code(Guard.Evaluate(p).reason)))
          && Canonical(record.value, equals) == record)
  {
    hide Guard.Evaluate;
    hide Guard.BuildReport;
    hide Guard.DecisionObject;
    hide Get;
    hide CheckManifest;
    hide ReadDecision;
    hide WriteRecord;
    hide Canonical;
    var report := Guard.BuildReport(p, number);
    ReportFields(p, number);
    DecisionOfReport(p, number);
    var d := Guard.Evaluate(p);
    RecordFields(Verdict(d.allowed, Guard.Code(d.reason)), report, manifest);
    if BuildRecord(report, manifest).Ok? {
      BuiltIsFixed(report, manifest, equals);
    }
  }

  // ----- Built manifests pass their checks -----

  lemma EvidenceFields(e: Evidence)
    ensures var m := WriteEvidence(e);
      && Get(m, "schema_version") == Some(Str(MANIFEST_SCHEMA)) && Get(m, "git_sha") == Some(Str(e.gitSha))
      && Get(m, "command") == Some(Arr(e.command)) && Get(m, "artifact_dir") == Some(Str(e.artifactDir))
      && Get(m, "log_path") == Some(Str(e.logPath)) && Get(m, "host") == Some(Obj(e.host))
      && Get(m, "backend") == Some(Obj(BackendObject(e)))
      && Get(m, "runtime_config") == Some(Obj(e.runtimeConfig)) && Get(m, "ports") == Some(Obj(e.ports))
  {
    var m := WriteEvidence(e);
    assert Distinct(m);
    GetAt(m, 0);
    GetAt(m, 1);
    GetAt(m, 2);
    GetAt(m, 3);
    GetAt(m, 4);
    GetAt(m, 5);
    GetAt(m, 6);
    GetAt(m, 7);
    GetAt(m, 8);
  }

  lemma BackendFields(e: Evidence)
    ensures Get(BackendObject(e), "id") == Some(Str(e.backendId))
    ensures Get(BackendObject(e), "model_id") == Some(Str(e.modelId))
  {
    GetAt(BackendObject(e), 0);
    GetAt(BackendObject(e), 1);
  }

  /** What validation checks, field by field, and what it makes of each. */
  ghost predicate Checks(e: Evidence, v: Evidence) {
    && !IsBlank(e.gitSha) && v.gitSha == e.gitSha
    && !IsBlank(e.backendId) && v.backendId == e.backendId
    && !IsBlank(e.modelId) && v.modelId == e.modelId
    && Command(e.command).Ok? && v.command == e.command
    && ArtifactDir(e.artifactDir) == Ok(v.artifactDir)
    && PathInside(e.logPath, v.artifactDir, ".log", "log_path") == Ok(v.logPath)
    && Host(e.host).Ok? && v.host == e.host
    && NonEmptyMapping(e.runtimeConfig, "runtime_config").Ok? && v.runtimeConfig == e.runtimeConfig
    && Ports(e.ports, 1, None).Ok? && v.ports == e.ports
  }

  lemma ValidateExactly(e: Evidence, v: Evidence)
    ensures ValidateEvidence(e) == Ok(v) <==> Checks(e, v)
  {
    hide ArtifactDir;
    hide PathInside;
    hide Command;
    hide Host;
    hide Ports;
    hide NonEmptyMapping;
    hide IsBlank;
  }

  lemma ValidEvidenceStable(e: Evidence)
    requires ValidateEvidence(e).Ok?
    ensures var v := ValidateEvidence(e).value;
      Checks(v, v) && ValidateEvidence(v) == Ok(v) && !IsBlank(v.artifactDir) && !IsBlank(v.logPath)
  {
    hide ValidateEvidence;
    hide ArtifactDir;
    hide PathInside;
    hide Command;
    hide Host;
    hide Ports;
    hide NonEmptyMapping;
    hide IsBlank;
    hide UnderRuntime;
    var v := ValidateEvidence(e).value;
    ValidateExactly(e, v);
    ValidateExactly(v, v);
    ArtifactDirStable(e.artifactDir);
    PathInsideStable(e.logPath, v.artifactDir, ".log", "log_path");
    NotBlank(v.artifactDir);
    NotBlank(v.logPath);
  }

  /** A built manifest passes the checks of the record, and with the report of a plan for its backend
      and model it makes a record; the record allows execution only if the plan's true memory total is
      within half a thousandth of its ceiling. */
  lemma BuiltManifestMakesRecord(p: Guard.Plan, number: real -> Json, e: Evidence)
    requires BuildEvidenceManifest(e).Ok? && p.backendId == e.backendId && p.modelId == e.modelId
    ensures var record := BuildRecord(Guard.BuildReport(p, number), BuildEvidenceManifest(e).value);
      && record.Ok?
      && (Get(record.value, "can_execute") == Some(Bool(true)) ==> Guard.TrueTotal(p) <= p.memoryCeilingGib + 0.0005)
  {
    hide Guard.Evaluate;
    hide BuildRecord;
    hide ValidateEvidence;
    var v := ValidateEvidence(e).value;
    BuiltManifestMatches(p, e);
    PreflightToRecord(p, number, WriteEvidence(v), (literal, n) => false);
    if Guard.Evaluate(p).allowed {
      Guard.AllowedFits(p);
    }
  }

  /** Evidence that validates, written as it stands, without what validation makes of its paths, passes
      the checks of the record too. */
  lemma WrittenMatches(p: Guard.Plan, e: Evidence)
    requires ValidateEvidence(e).Ok? && p.backendId == e.backendId && p.modelId == e.modelId
    ensures Matches(p, WriteEvidence(e))
  {
    hide ValidateEvidence;
    hide Get;
    hide WriteEvidence;
    hide BackendObject;
    hide ArtifactDir;
    hide PathInside;
    hide Command;
    hide Host;
    hide Ports;
    hide NonEmptyMapping;
    hide IsBlank;
    var v := ValidateEvidence(e).value;
    ValidateExactly(e, v);
    AcceptedNotBlank(e.artifactDir, e.logPath);
    EvidenceFields(e);
    BackendFields(e);
  }

  lemma AcceptedNotBlank(dir: string, log: string)
    requires ArtifactDir(dir).Ok? && PathInside(log, ArtifactDir(dir).value, ".log", "log_path").Ok?
    ensures !IsBlank(dir) && !IsBlank(log)
  {
    hide Components;
    hide Suffix;
    hide IsBlank;
    AcceptedDir(dir);
    if IsBlank(dir) {
      BlankHasOnePart(dir);
    }
    if IsBlank(log) {
      BlankHasOnePart(log);
    }
  }

  lemma BuiltManifestMatches(p: Guard.Plan, e: Evidence)
    requires ValidateEvidence(e).Ok? && p.backendId == e.backendId && p.modelId == e.modelId
    ensures Matches(p, WriteEvidence(ValidateEvidence(e).value))
  {
    var v := ValidateEvidence(e).value;
    ValidateExactly(e, v);
    hide ValidateEvidence;
    hide Matches;
    hide ArtifactDir;
    hide PathInside;
    hide IsBlank;
    ValidEvidenceStable(e);
    WrittenMatches(p, v);
  }

  /** The canonical records are exactly the built ones. */
  lemma CanonicalExactly(record: Object, equals: (string, int) -> bool)
    ensures Canonical(record, equals) == Ok(record)
      <==> exists report, manifest :: BuildRecord(report, manifest) == Ok(record)
  {
    hide BuildRecord;
    if Canonical(record, equals) == Ok(record) {
      var report := MappingField(record, "preflight_report").value;
      var manifest := MappingField(record, "evidence_manifest").value;
      assert BuildRecord(report, manifest) == Ok(record);
    }
    if report, manifest :| BuildRecord(report, manifest) == Ok(record) {
      BuiltIsFixed(report, manifest, equals);
    }
  }

  // ----- Evidence that is accepted -----

  function ExampleEvidence(log: string): Evidence {
    Evidence("abc", [Str("run")], Join(ExampleDir()), log,
             [Entry("os", Str("macos")), Entry("chip", Str("m4")), Entry("memory_gib", Int(24))], "b", "m",
             [Entry("k", Str("v"))], [Entry("api", Int(1))])
  }

  lemma FieldsAccepted(log: string)
    ensures var e := ExampleEvidence(log);
      && !IsBlank(e.gitSha) && !IsBlank(e.backendId) && !IsBlank(e.modelId)
      && Command(e.command).Ok? && Host(e.host).Ok? && Ports(e.ports, 1, None).Ok?
      && NonEmptyMapping(e.runtimeConfig, "runtime_config").Ok?
  {
    hide IsBlank;
    hide ExampleDir;
    var e := ExampleEvidence(log);
    NotBlank(e.gitSha);
    NotBlank(e.backendId);
    NotBlank(e.modelId);
    var keys := Keys(e.host);
    assert keys[0] == "os" && keys[1] == "chip" && keys[2] == "memory_gib";
  }

  /** The evidence makes a canonical record that permits the plan to run. */
  ghost predicate MakesRunnableRecord(e: Evidence, p: Guard.Plan, number: real -> Json, equals: (string, int) -> bool) {
    && BuildEvidenceManifest(e).Ok?
    && Runnable(BuildRecord(Guard.BuildReport(p, number), BuildEvidenceManifest(e).value), equals)
  }

  ghost predicate Runnable(record: Result<Object, ValueError>, equals: (string, int) -> bool) {
    record.Ok? && Canonical(record.value, equals) == record && Get(record.value, "can_execute") == Some(Bool(true))
  }

  /** Complete evidence that makes such a record: the laws above are about something. */
  lemma ExampleAccepted(number: real -> Json, equals: (string, int) -> bool)
    ensures exists e :: MakesRunnableRecord(e, ExamplePlan(), number, equals)
  {
    hide Canonical;
    hide BuildRecord;
    hide BuildEvidenceManifest;
    hide Guard.BuildReport;
    hide Get;
    var e := EvidenceAccepted();
    BuiltManifestMakesRecord(ExamplePlan(), number, e);
    PreflightToRecord(ExamplePlan(), number, BuildEvidenceManifest(e).value, equals);
    PlanAllowed();
    assert MakesRunnableRecord(e, ExamplePlan(), number, equals);
  }

  function ExamplePlan(): Guard.Plan {
    Guard.Plan("b", "m", true, 1.0, 0.0, 0.0, 0.0, 24.0)
  }

  lemma PlanAllowed()
    ensures Guard.Evaluate(ExamplePlan()).allowed
  {
    assert ExamplePlan().memoryCeilingGib == 24000 as real / 1000.0;
    Guard.CeilingInThousandths(ExamplePlan(), 24000);
  }

  lemma EvidenceAccepted() returns (e: Evidence)
    ensures BuildEvidenceManifest(e).Ok? && e.backendId == "b" && e.modelId == "m"
  {
    hide PathInside;
    hide ArtifactDir;
    hide IsBlank;
    hide Command;
    hide Host;
    hide Ports;
    hide NonEmptyMapping;
    hide Join;
    hide ExampleDir;
    var dir := ExampleDir();
    ExampleDirIsRuntimeDir();
    var log := Join(dir + ["a" + "." + "log"]);
    assert "." + "log" == ".log";
    FileAccepted(dir, "a", "log", "log_path");
    ArtifactDirAccepted(dir);
    FieldsAccepted(log);
    e := ExampleEvidence(log);
    assert Checks(e, e);
    ValidateExactly(e, e);
  }

  // ----- Exactly which manifests pass the checks -----

  /** What an evidence manifest must hold, field by field. */
  ghost predicate IsEvidence(m: Object) {
    var backend, dir := ObjectOf(m, "backend"), TextOf(m, "artifact_dir");
    && HasText(m, "git_sha") && HasText(backend, "id") && HasText(backend, "model_id")
    && IsCommand(ItemsOf(m, "command")) && IsArtifactDir(dir) && IsFileIn(TextOf(m, "log_path"), dir, ".log")
    && IsHost(ObjectOf(m, "host")) && ObjectOf(m, "runtime_config") != []
    && ArePorts(ObjectOf(m, "ports"), 1, None)
  }

  lemma LogSuffix()
    ensures ".log" != "" && ".log"[0] == '.' && '.' !in ".log"[1..]
  {
    assert ".log"[1..] == "log";
  }

  lemma BackendExactly(backend: Object)
    ensures NonEmptyString(Get(backend, "id"), "backend_id").Ok? <==> HasText(backend, "id")
    ensures NonEmptyString(Get(backend, "model_id"), "model_id").Ok? <==> HasText(backend, "model_id")
  {
    hide IsBlank;
    hide OnlySpace;
    hide Get;
    BlankExactly(TextOf(backend, "id"));
    BlankExactly(TextOf(backend, "model_id"));
    NothingIsBlank();
  }

  lemma NoObject()
    ensures !IsHost([]) && !ArePorts([], 1, None) && !IsCommand([]) && !HasText([], "id")
    ensures !HasText([], "model_id")
  {}

  lemma LogExactly(dir: string, log: string)
    ensures ArtifactDir(dir).Ok? && PathInside(log, ArtifactDir(dir).value, ".log", "log_path").Ok?
      <==> IsArtifactDir(dir) && IsFileIn(log, dir, ".log")
    ensures IsArtifactDir(dir) && IsFileIn(log, dir, ".log") ==> !OnlySpace(dir) && !OnlySpace(log)
  {
    hide Components;
    hide ArtifactDir;
    hide PathInside;
    hide Join;
    hide OnlySpace;
    hide IsFileIn;
    hide IsArtifactDir;
    LogSuffix();
    DirExactly(dir);
    if IsArtifactDir(dir) {
      FileExactly(log, dir, Join(Components(dir)), ".log", "log_path");
    }
  }

  /** A manifest passes the checks of the record exactly when every field holds what it must. */
  lemma CheckedExactly(m: Object)
    ensures CheckManifest(m).Ok? <==> IsEvidence(m)
  {
    hide Get;
    hide ArtifactDir;
    hide PathInside;
    hide StringField;
    hide NonEmptyString;
    hide Command;
    hide Host;
    hide Ports;
    hide OnlySpace;
    hide IsArtifactDir;
    hide IsFileIn;
    hide IsCommand;
    hide IsHost;
    hide ArePorts;
    StringFieldExactly(m, "git_sha");
    StringFieldExactly(m, "artifact_dir");
    StringFieldExactly(m, "log_path");
    BackendExactly(ObjectOf(m, "backend"));
    CommandExactly(ItemsOf(m, "command"));
    HostExactly(ObjectOf(m, "host"));
    PortsExactly(ObjectOf(m, "ports"), 1, None);
    LogExactly(TextOf(m, "artifact_dir"), TextOf(m, "log_path"));
    NoObject();
  }

  /** A record comes about exactly when both schemas are right, the manifest holds what it must, the two
      name the same backend and model, and the report holds a decision; it then carries that decision. */
  lemma RecordExactly(report: Object, manifest: Object)
    ensures BuildRecord(report, manifest).Ok? <==>
      && Get(report, "schema_version") == Some(Str("runtime-preflight/v1"))
      && Get(manifest, "schema_version") == Some(Str("runtime-evidence-manifest/v1")) && IsEvidence(manifest)
      && Get(report, "backend_id") == Get(ObjectOf(manifest, "backend"), "id")
      && Get(report, "model_id") == Get(ObjectOf(manifest, "backend"), "model_id")
      && (exists b :: Get(ObjectOf(report, "decision"), "allowed") == Some(Bool(b)))
      && HasText(ObjectOf(report, "decision"), "reason_code")
    ensures BuildRecord(report, manifest).Ok? ==>
      var r := BuildRecord(report, manifest).value;
      && Get(r, "schema_version") == Some(Str("runtime-execution-record/v1"))
      && Get(r, "can_execute") == Get(ObjectOf(report, "decision"), "allowed")
      && TextOf(r, "reason_code") == TextOf(ObjectOf(report, "decision"), "reason_code")
      && ObjectOf(r, "preflight_report") == report && ObjectOf(r, "evidence_manifest") == manifest
  {
    hide Get;
    hide CheckManifest;
    hide IsBlank;
    hide OnlySpace;
    hide WriteRecord;
    CheckedExactly(manifest);
    EvidenceHasBackend(manifest);
    hide IsEvidence;
    BlankExactly(TextOf(ObjectOf(report, "decision"), "reason_code"));
    NothingIsBlank();
    NoDecision();
    if BuildRecord(report, manifest).Ok? {
      RecordFields(ReadDecision(report).value, report, manifest);
    }
  }

  lemma EvidenceHasBackend(m: Object)
    ensures IsEvidence(m) ==> MappingField(m, "backend") == Ok(ObjectOf(m, "backend"))
  {
    hide Get;
    hide OnlySpace;
    NoObject();
  }

  lemma NoDecision()
    ensures Get<string, Json>([], "allowed") == None
  {}

  /** The flag itself, or the number 1 or 0 that equals it. */
  ghost predicate IsFlag(value: Option<Json>, flag: bool, equals: (string, int) -> bool) {
    var n := if flag then 1 else 0;
    || value == Some(Bool(flag)) || value == Some(Int(n))
    || exists literal :: value == Some(Float(literal)) && equals(literal, n)
  }

  lemma FlagExactly(value: Option<Json>, flag: bool, equals: (string, int) -> bool)
    ensures EqualsFlag(value, flag, equals) <==> IsFlag(value, flag, equals)
  {}

  /** A stored record is accepted exactly when it is marked as one, its report and its manifest make a record,
      and its own flag and reason are those of the report's decision; its canonical form is that record. */
  lemma AcceptedExactly(record: Object, equals: (string, int) -> bool)
    ensures var report, manifest := ObjectOf(record, "preflight_report"), ObjectOf(record, "evidence_manifest");
      var decision := ObjectOf(report, "decision");
      && (Canonical(record, equals).Ok? <==>
          && Get(record, "schema_version") == Some(Str("runtime-execution-record/v1"))
          && BuildRecord(report, manifest).Ok?
          && (exists flag :: Get(decision, "allowed") == Some(Bool(flag))
                && IsFlag(Get(record, "can_execute"), flag, equals))
          && Get(record, "reason_code") == Get(decision, "reason_code"))
      && (Canonical(record, equals).Ok? ==> Canonical(record, equals) == BuildRecord(report, manifest))
  {
    hide Get;
    hide BuildRecord;
    hide EqualsFlag;
    hide IsFlag;
    var report, manifest := ObjectOf(record, "preflight_report"), ObjectOf(record, "evidence_manifest");
    NoRecord(report, manifest);
    if BuildRecord(report, manifest).Ok? {
      var flag := BuiltDecision(report, manifest);
      FlagExactly(Get(record, "can_execute"), flag, equals);
    }
  }

  /** Neither document of a built record is empty. */
  lemma NoRecord(report: Object, manifest: Object)
    ensures BuildRecord([], manifest).Raised? && BuildRecord(report, []).Raised?
  {
    hide CheckManifest;
    hide CheckIds;
    hide ReadDecision;
    GetNothing("schema_version");
  }

  lemma GetNothing(field: string)
    ensures Get<string, Json>([], field) == None
  {}

  /** A built record holds the flag and the reason of its report's decision. */
  lemma BuiltDecision(report: Object, manifest: Object) returns (flag: bool)
    requires BuildRecord(report, manifest).Ok?
    ensures var r, decision := BuildRecord(report, manifest).value, ObjectOf(report, "decision");
      && Get(decision, "allowed") == Some(Bool(flag)) && Get(r, "can_execute") == Some(Bool(flag))
      && Get(r, "reason_code") == Get(decision, "reason_code")
  {
    hide CheckManifest;
    hide CheckIds;
    hide IsBlank;
    hide Get;
    hide WriteRecord;
    flag := ReadDecision(report).value.allowed;
    RecordFields(ReadDecision(report).value, report, manifest);
  }
}
