/** The index of an evidence bundle: the labelled files of an execution, sorted and checked. */
module EvidenceBundle {
  import opened Wrappers
  import opened Dicts
  import opened Ordering
  import opened JsonText
  import opened Paths
  import opened Fields
  import Record = RuntimeArtifacts
  import Guard = RuntimeGuard

  /** A labelled file with its checked path. */
  type Files = Dict<string, string>

  function CheckFile(e: Entry<string, Json>, artifactDir: string): Result<Entry<string, string>, ValueError> {
    var label_ :- NonEmptyString(Some(Str(e.key)), "evidence file label");
    var value :- NonEmptyString(Some(e.value), "evidence file path");
    var path :- PathInside(value, artifactDir, "", "evidence file path");
    Ok(Entry(label_, path))
  }

  function CheckAll(items: Dict<string, Json>, artifactDir: string): Result<Files, ValueError> {
    if items == [] then Ok([])
    else
      var before :- CheckAll(items[..|items| - 1], artifactDir);
      var last :- CheckFile(items[|items| - 1], artifactDir);
      Ok(before + [last])
  }

  /** The files in the order of their labels; the first that fails its checks raises. */
  function EvidenceFiles(files: Object, artifactDir: string): Result<Files, ValueError> {
    CheckAll(SortByKey(files), artifactDir)
  }

  lemma {:induction false} CheckAllFails(items: Dict<string, Json>, i: nat, artifactDir: string)
    requires i < |items| && CheckAll(items[..i + 1], artifactDir).Raised?
    ensures CheckAll(items, artifactDir) == Raised(CheckAll(items[..i + 1], artifactDir).error)
  {
    if i + 1 == |items| {
      assert items[..i + 1] == items;
    } else {
      assert items[..|items| - 1][..i + 1] == items[..i + 1];
      CheckAllFails(items[..|items| - 1], i, artifactDir);
    }
  }

  method ValidatedEvidenceFiles(files: Object, artifactDir: string) returns (r: Result<Files, ValueError>)
    ensures r == EvidenceFiles(files, artifactDir)
  {
    hide CheckFile;
    var items := SortByKey(files);
    var normalized: Files := [];
    for i := 0 to |items|
      invariant CheckAll(items[..i], artifactDir) == Ok(normalized)
    {
      assert items[..i + 1][..i] == items[..i];
      var file := CheckFile(items[i], artifactDir);
      if file.Raised? {
        CheckAllFails(items, i, artifactDir);
        return Raised(file.error);
      }
      normalized := normalized + [file.value];
    }
    assert items[..|items|] == items;
    return Ok(normalized);
  }

  // ----- What the index lists -----

  function AsObject(files: Files): (o: Object)
    ensures |o| == |files| && forall i :: 0 <= i < |o| ==> o[i] == Entry(files[i].key, Str(files[i].value))
  {
    seq(|files|, i requires 0 <= i < |files| => Entry(files[i].key, Str(files[i].value)))
  }

  lemma CheckFileStable(e: Entry<string, Json>, dir: string)
    requires CheckFile(e, dir).Ok? && UnderRuntime(Components(dir))
    ensures var f := CheckFile(e, dir).value;
      && f.key == e.key && StaysInside(Components(dir), Components(f.value))
      && CheckFile(Entry(f.key, Str(f.value)), dir) == Ok(f)
  {
    hide PathInside;
    hide IsBlank;
    hide UnderRuntime;
    hide StaysInside;
    var f := CheckFile(e, dir).value;
    PathInsideStable(e.value.s, dir, "", "evidence file path");
    NotBlank(f.value);
  }

  lemma {:induction false} CheckAllShape(items: Dict<string, Json>, dir: string)
    requires CheckAll(items, dir).Ok? && UnderRuntime(Components(dir))
    ensures var files := CheckAll(items, dir).value;
      && |files| == |items| && (forall i :: 0 <= i < |items| ==> files[i].key == items[i].key)
      && (forall i :: 0 <= i < |files| ==> StaysInside(Components(dir), Components(files[i].value)))
  {
    hide CheckFile;
    hide StaysInside;
    hide UnderRuntime;
    hide Components;
    if items != [] {
      CheckAllShape(items[..|items| - 1], dir);
      CheckFileStable(items[|items| - 1], dir);
    }
  }

  lemma AsObjectSnoc(files: Files, f: Entry<string, string>)
    ensures AsObject(files + [f]) == AsObject(files) + [Entry(f.key, Str(f.value))]
  {}

  lemma CheckAllSnoc(items: Dict<string, Json>, e: Entry<string, Json>, dir: string)
    ensures CheckAll(items, dir).Ok? && CheckFile(e, dir).Ok? ==>
      CheckAll(items + [e], dir) == Ok(CheckAll(items, dir).value + [CheckFile(e, dir).value])
  {
    hide CheckFile;
    assert (items + [e])[..|items|] == items;
  }

  lemma {:induction false} CheckAllAgain(items: Dict<string, Json>, dir: string)
    requires CheckAll(items, dir).Ok? && UnderRuntime(Components(dir))
    ensures CheckAll(AsObject(CheckAll(items, dir).value), dir) == CheckAll(items, dir)
  {
    hide CheckFile;
    hide UnderRuntime;
    hide Components;
    hide AsObject;
    if items != [] {
      var front, last := items[..|items| - 1], items[|items| - 1];
      CheckAllAgain(front, dir);
      CheckFileStable(last, dir);
      var before, f := CheckAll(front, dir).value, CheckFile(last, dir).value;
      AsObjectSnoc(before, f);
      CheckAllSnoc(AsObject(before), Entry(f.key, Str(f.value)), dir);
    }
  }

  lemma {:induction false} CheckAllAt(items: Dict<string, Json>, dir: string, i: nat)
    requires i < |items| && CheckAll(items, dir).Ok?
    ensures |CheckAll(items, dir).value| == |items| && CheckFile(items[i], dir) == Ok(CheckAll(items, dir).value[i])
  {
    hide CheckFile;
    if i < |items| - 1 {
      CheckAllAt(items[..|items| - 1], dir, i);
    } else {
      CheckAllLength(items[..|items| - 1], dir);
    }
  }

  lemma {:induction false} CheckAllLength(items: Dict<string, Json>, dir: string)
    requires CheckAll(items, dir).Ok?
    ensures |CheckAll(items, dir).value| == |items|
  {
    hide CheckFile;
    if items != [] {
      CheckAllLength(items[..|items| - 1], dir);
    }
  }

  /** The listed path is the checked path that the files give for the label. */
  ghost predicate ListedFor(files: Object, dir: string, listed: Entry<string, string>) {
    && Get(files, listed.key).Some?
    && CheckFile(Entry(listed.key, Get(files, listed.key).value), dir) == Ok(listed)
  }

  lemma ListedAt(files: Object, dir: string, i: nat)
    requires Distinct(files) && EvidenceFiles(files, dir).Ok? && i < |EvidenceFiles(files, dir).value|
    ensures ListedFor(files, dir, EvidenceFiles(files, dir).value[i])
  {
    hide CheckFile;
    var items := SortByKey(files);
    CheckAllLength(items, dir);
    CheckAllAt(items, dir, i);
    SortElements(files);
    assert items[i] in multiset(files);
    var j :| 0 <= j < |files| && files[j] == items[i];
    GetAt(files, j);
    CheckedKey(items[i], dir);
  }

  lemma CheckedKey(e: Entry<string, Json>, dir: string)
    requires CheckFile(e, dir).Ok?
    ensures CheckFile(e, dir).value.key == e.key
  {}

  /** The index lists exactly the labels of the files, each once and in increasing order, each with the
      checked path given for it, inside the artifact directory; and building an index from the listed
      files lists them again. */
  lemma IndexIsStable(files: Object, dir: string)
    requires Distinct(files) && UnderRuntime(Components(dir)) && EvidenceFiles(files, dir).Ok?
    ensures var listed := EvidenceFiles(files, dir).value;
      && SortedByKey(listed)
      && multiset(Keys(listed)) == multiset(Keys(files))
      && (forall i :: 0 <= i < |listed| ==> ListedFor(files, dir, listed[i]))
      && (forall i :: 0 <= i < |listed| ==> StaysInside(Components(dir), Components(listed[i].value)))
      && EvidenceFiles(AsObject(listed), dir) == Ok(listed)
  {
    hide CheckAll;
    hide StaysInside;
    hide UnderRuntime;
    hide ListedFor;
    var items := SortByKey(files);
    SortSorts(files);
    SortKeys(files);
    CheckAllShape(items, dir);
    CheckAllAgain(items, dir);
    var listed := EvidenceFiles(files, dir).value;
    assert Keys(listed) == Keys(items);
    forall i | 0 <= i < |listed|
      ensures ListedFor(files, dir, listed[i])
    {
      ListedAt(files, dir, i);
    }
    assert SortedByKey(listed);
    SortIdempotent(AsObject(listed));
  }

  /** A labelled path: a text below the directory, without a step upwards, and the path it is listed as. */
  ghost predicate IsListable(e: Entry<string, Json>, dir: string, path: string) {
    && !OnlySpace(e.key) && e.value.Str? && !OnlySpace(e.value.s)
    && IsRelative(e.value.s) && StaysInside(Components(dir), Components(e.value.s)) && path == Written(e.value.s)
  }

  lemma CheckFileExactly(e: Entry<string, Json>, dir: string, label_: string, path: string)
    ensures CheckFile(e, dir) == Ok(Entry(label_, path)) <==> label_ == e.key && IsListable(e, dir, path)
  {
    hide PathInside;
    hide IsBlank;
    hide OnlySpace;
    hide StaysInside;
    hide Components;
    hide Written;
    BlankExactly(e.key);
    if e.value.Str? {
      BlankExactly(e.value.s);
      PathInsideExactly(e.value.s, dir, "", "evidence file path", path);
    }
  }

  lemma {:induction false} CheckAllExactly(items: Dict<string, Json>, dir: string)
    ensures CheckAll(items, dir).Ok? <==> forall e :: e in items ==> CheckFile(e, dir).Ok?
  {
    if items != [] {
      hide CheckFile;
      var front, last := items[..|items| - 1], items[|items| - 1];
      assert items == front + [last];
      CheckAllExactly(front, dir);
    }
  }

  ghost predicate HasListing(e: Entry<string, Json>, dir: string) {
    exists path :: IsListable(e, dir, path)
  }

  lemma ListingExactly(e: Entry<string, Json>, dir: string)
    ensures CheckFile(e, dir).Ok? <==> HasListing(e, dir)
    ensures CheckFile(e, dir).Ok? ==>
      CheckFile(e, dir).value.key == e.key && IsListable(e, dir, CheckFile(e, dir).value.value)
  {
    hide CheckFile;
    hide IsListable;
    if CheckFile(e, dir).Ok? {
      var f := CheckFile(e, dir).value;
      CheckFileExactly(e, dir, f.key, f.value);
    }
    if path :| IsListable(e, dir, path) {
      CheckFileExactly(e, dir, e.key, path);
    }
  }

  lemma SortMembers(files: Object)
    ensures |SortByKey(files)| == |files|
    ensures forall e :: e in SortByKey(files) <==> e in files
  {
    var items := SortByKey(files);
    hide SortByKey;
    SortElements(files);
    assert |multiset(items)| == |items| && |multiset(files)| == |files|;
    forall e
      ensures e in items <==> e in files
    {
      assert e in items <==> e in multiset(items);
    }
  }

  /** The listing comes from an entry of the files. */
  ghost predicate ListedFrom(files: Object, dir: string, listed: Entry<string, string>) {
    exists e :: e in files && e.key == listed.key && IsListable(e, dir, listed.value)
  }

  /** Files are listed exactly when every one of them has a label and a path below the directory; each is
      listed under its label, as its path is written in normal form. */
  lemma FilesExactly(files: Object, dir: string)
    ensures EvidenceFiles(files, dir).Ok? <==> forall e :: e in files ==> HasListing(e, dir)
    ensures EvidenceFiles(files, dir).Ok? ==>
      var listed := EvidenceFiles(files, dir).value;
      |listed| == |files| && forall i :: 0 <= i < |listed| ==> ListedFrom(files, dir, listed[i])
  {
    hide CheckFile;
    hide CheckAll;
    hide HasListing;
    hide IsListable;
    hide SortByKey;
    var items := SortByKey(files);
    SortMembers(files);
    CheckAllExactly(items, dir);
    forall e
      ensures CheckFile(e, dir).Ok? <==> HasListing(e, dir)
    {
      ListingExactly(e, dir);
    }
    if EvidenceFiles(files, dir).Ok? {
      CheckAllLength(items, dir);
      var listed := EvidenceFiles(files, dir).value;
      forall i | 0 <= i < |listed|
        ensures ListedFrom(files, dir, listed[i])
      {
        CheckAllAt(items, dir, i);
        ListingExactly(items[i], dir);
        assert items[i] in items;
      }
    }
  }

  // ----- The whole index -----

  datatype Index = Index(
    artifactDir: string, executionRecordPath: string, logPath: string, canExecute: bool, reasonCode: string,
    files: Files)

  function RecordPath(artifactDir: string): string {
    artifactDir + "/execution-record.json"
  }

  function BuildIndex(record: Object, files: Object, equals: (string, int) -> bool): Result<Index, ValueError> {
    var canonical :- Record.Canonical(record, equals);
    var manifest :- MappingField(canonical, "evidence_manifest");
    var artifactDir :- StringField(manifest, "artifact_dir");
    var logPath :- StringField(manifest, "log_path");
    var reasonCode :- StringField(canonical, "reason_code");
    var listed :- EvidenceFiles(files, artifactDir);
    Ok(Index(artifactDir, RecordPath(artifactDir), logPath, Get(canonical, "can_execute") == Some(Bool(true)),
             reasonCode, listed))
  }

  lemma RecordPathComponents(dir: string)
    ensures Components(RecordPath(dir)) == Components(dir) + ["execution-record.json"]
  {
    hide Components;
    hide IsComponent;
    var file := "execution-record.json";
    RecordFile(file);
    ComponentsStep(file, "");
    ComponentsConcat(dir, file);
    assert RecordPath(dir) == dir + "/" + file;
  }

  lemma RecordFile(file: string)
    requires file == "execution-record.json"
    ensures IsComponent(file)
  {}

  ghost predicate PathsInside(i: Index) {
    && UnderRuntime(Components(i.artifactDir)) && ".." !in Components(i.artifactDir)
    && Components(i.executionRecordPath) == Components(i.artifactDir) + ["execution-record.json"]
    && StaysInside(Components(i.artifactDir), Components(i.logPath))
    && forall j :: 0 <= j < |i.files| ==> StaysInside(Components(i.artifactDir), Components(i.files[j].value))
  }

  /** The texts under which the record's own manifest names its directory and its log. */
  ghost predicate RecordNames(record: Object, dir: string, log: string) {
    && MappingField(record, "evidence_manifest").Ok?
    && StringField(MappingField(record, "evidence_manifest").value, "artifact_dir") == Ok(dir)
    && StringField(MappingField(record, "evidence_manifest").value, "log_path") == Ok(log)
  }

  /** An index copies the directory and the log from the record as they are written there. */
  lemma IndexCopies(record: Object, files: Object, equals: (string, int) -> bool)
    requires BuildIndex(record, files, equals).Ok?
    ensures var i := BuildIndex(record, files, equals).value;
      && RecordNames(record, i.artifactDir, i.logPath)
      && ArtifactDir(i.artifactDir).Ok?
      && PathInside(i.logPath, ArtifactDir(i.artifactDir).value, ".log", "log_path").Ok?
      && i.executionRecordPath == RecordPath(i.artifactDir)
      && EvidenceFiles(files, i.artifactDir) == Ok(i.files)
  {
    hide Record.Canonical;
    hide Record.CheckManifest;
    hide StringField;
    hide MappingField;
    hide EvidenceFiles;
    hide ArtifactDir;
    hide PathInside;
    hide RecordPath;
    Record.CanonicalFields(record, equals);
    Record.CheckedPaths(MappingField(Record.Canonical(record, equals).value, "evidence_manifest").value);
  }

  /** Every path an index names lies inside the artifact directory of its record, and it lists every
      label once in increasing order. */
  lemma IndexPathsInside(record: Object, files: Object, equals: (string, int) -> bool)
    requires Distinct(files) && BuildIndex(record, files, equals).Ok?
    ensures PathsInside(BuildIndex(record, files, equals).value)
    ensures SortedByKey(BuildIndex(record, files, equals).value.files)
  {
    hide BuildIndex;
    hide EvidenceFiles;
    hide UnderRuntime;
    hide StaysInside;
    hide ArtifactDir;
    hide PathInside;
    hide SortedByKey;
    hide RecordPath;
    hide RecordNames;
    var i := BuildIndex(record, files, equals).value;
    IndexCopies(record, files, equals);
    AcceptedDir(i.artifactDir);
    RecordPathComponents(i.artifactDir);
    LogInside(i.logPath, i.artifactDir);
    IndexIsStable(files, i.artifactDir);
  }

  lemma LogInside(log: string, dir: string)
    requires ArtifactDir(dir).Ok? && PathInside(log, ArtifactDir(dir).value, ".log", "log_path").Ok?
    ensures StaysInside(Components(dir), Components(log))
  {
    hide ArtifactDir;
    hide PathInside;
    hide Components;
    hide StaysInside;
    AcceptedDir(dir);
    PathInsideKeeps(log, ArtifactDir(dir).value);
  }

  lemma PathInsideKeeps(log: string, dir: string)
    requires PathInside(log, dir, ".log", "log_path").Ok?
    ensures StaysInside(Components(dir), Components(log))
  {
    hide Components;
    hide Suffix;
  }

  // ----- Paths in normal form -----

  /** A path text that is what the path it reads as is written as. */
  predicate IsNormal(path: string) {
    AsPosix(Parse(path)) == path
  }

  /** The path of the execution record is in normal form exactly when the directory is. */
  lemma RecordPathNormal(dir: string)
    requires ArtifactDir(dir).Ok?
    ensures IsNormal(RecordPath(dir)) <==> IsNormal(dir)
  {
    hide ArtifactDir;
    hide Components;
    hide UnderRuntime;
    AcceptedDir(dir);
    RecordPathComponents(dir);
    var parts, file := Components(dir), "execution-record.json";
    UnderRuntimeNotEmpty(parts);
    JoinSnoc(parts, file);
    assert RecordPath(dir) == dir + "/" + file;
    assert Root(RecordPath(dir)) == "" by {
      assert RecordPath(dir)[0] == dir[0];
    }
    SameSuffix(Join(parts), dir, "/" + file);
    assert Join(parts) + "/" + file == Join(parts) + ("/" + file) && dir + "/" + file == dir + ("/" + file);
  }

  lemma UnderRuntimeNotEmpty(parts: seq<string>)
    requires UnderRuntime(parts)
    ensures parts != []
  {}

  lemma SameSuffix(a: string, b: string, suffix: string)
    ensures a + suffix == b + suffix <==> a == b
  {
    if a + suffix == b + suffix {
      assert |a| == |b|;
      assert (a + suffix)[..|a|] == a && (b + suffix)[..|b|] == b;
    }
  }

  lemma CheckedFileNormal(e: Entry<string, Json>, dir: string)
    requires CheckFile(e, dir).Ok?
    ensures IsNormal(CheckFile(e, dir).value.value)
  {
    hide Components;
    hide IsBlank;
    RelativePathStable(e.value.s, "evidence file path");
  }

  /** Every path of the index is in normal form. */
  ghost predicate AllNormal(i: Index) {
    && IsNormal(i.artifactDir) && IsNormal(i.executionRecordPath) && IsNormal(i.logPath)
    && forall j :: 0 <= j < |i.files| ==> IsNormal(i.files[j].value)
  }

  /** Listed files are always in normal form, the execution record's path exactly when the record's
      directory is, and the log exactly when the record's log is: so every path of an index is in normal
      form exactly when the two texts that the record's manifest holds both are. */
  lemma IndexNormalExactly(record: Object, files: Object, equals: (string, int) -> bool, dir: string, log: string)
    requires Distinct(files) && BuildIndex(record, files, equals).Ok? && RecordNames(record, dir, log)
    ensures var i := BuildIndex(record, files, equals).value;
      && (AllNormal(i) <==> IsNormal(dir) && IsNormal(log))
      && (IsNormal(i.executionRecordPath) <==> IsNormal(dir)) && (IsNormal(i.logPath) <==> IsNormal(log))
      && forall j :: 0 <= j < |i.files| ==> IsNormal(i.files[j].value)
  {
    hide BuildIndex;
    hide IsNormal;
    hide ArtifactDir;
    hide PathInside;
    hide RecordPath;
    hide EvidenceFiles;
    hide StringField;
    hide MappingField;
    var i := BuildIndex(record, files, equals).value;
    IndexCopies(record, files, equals);
    RecordPathNormal(i.artifactDir);
    forall j | 0 <= j < |i.files|
      ensures IsNormal(i.files[j].value)
    {
      ListedAt(files, i.artifactDir, j);
      CheckedFileNormal(Entry(i.files[j].key, Get(files, i.files[j].key).value), i.artifactDir);
    }
  }

  // ----- From a preflight to an index -----

  /** What an index of a record says, against the plan and the evidence that the record was built from. */
  ghost predicate Reports(i: Index, p: Guard.Plan, e: Record.Evidence, listed: Files) {
    && i.artifactDir == e.artifactDir && i.logPath == e.logPath && i.files == listed
    && i.executionRecordPath == RecordPath(e.artifactDir)
    && i.canExecute == Guard.Evaluate(p).allowed && i.reasonCode == Guard.Code(Guard.Evaluate(p).reason)
  }

  lemma IndexOfFields(record: Object, manifest: Object, e: Record.Evidence, allowed: bool, reasonCode: string,
                      files: Object, equals: (string, int) -> bool)
    requires Record.Canonical(record, equals) == Ok(record)
    requires Get(record, "evidence_manifest") == Some(Obj(manifest))
    requires Get(record, "can_execute") == Some(Bool(allowed))
    requires Get(record, "reason_code") == Some(Str(reasonCode)) && !IsBlank(reasonCode)
    requires Get(manifest, "artifact_dir") == Some(Str(e.artifactDir)) && !IsBlank(e.artifactDir)
    requires Get(manifest, "log_path") == Some(Str(e.logPath)) && !IsBlank(e.logPath)
    ensures BuildIndex(record, files, equals).Ok? <==> EvidenceFiles(files, e.artifactDir).Ok?
    ensures BuildIndex(record, files, equals).Ok? ==>
      BuildIndex(record, files, equals).value
      == Index(e.artifactDir, RecordPath(e.artifactDir), e.logPath, allowed, reasonCode,
               EvidenceFiles(files, e.artifactDir).value)
  {
    hide Record.Canonical;
    hide EvidenceFiles;
    hide RecordPath;
    hide IsBlank;
    hide Get;
  }

  lemma WrittenRecordFields(p: Guard.Plan, number: real -> Json, e: Record.Evidence, equals: (string, int) -> bool)
    requires Record.ValidateEvidence(e).Ok? && p.backendId == e.backendId && p.modelId == e.modelId
    ensures var manifest := Record.WriteEvidence(e);
      var record := Record.BuildRecord(Guard.BuildReport(p, number), manifest);
      && record.Ok? && Record.Canonical(record.value, equals) == record
      && Get(record.value, "evidence_manifest") == Some(Obj(manifest))
      && Get(record.value, "can_execute") == Some(Bool(Guard.Evaluate(p).allowed))
      && Get(record.value, "reason_code") == Some(Str(Guard.Code(Guard.Evaluate(p).reason)))
  {
    hide Guard.Evaluate;
    hide Guard.BuildReport;
    hide Record.WriteEvidence;
    hide Record.ValidateEvidence;
    hide Record.Canonical;
    hide Record.Matches;
    hide Get;
    var manifest := Record.WriteEvidence(e);
    Record.WrittenMatches(p, e);
    Record.PreflightToRecord(p, number, manifest, equals);
    var report := Guard.BuildReport(p, number);
    Record.RecordFields(Record.ReadDecision(report).value, report, manifest);
    hide Record.WriteRecord;
    hide Record.CheckManifest;
    hide Record.ReadDecision;
  }

  /** From a plan and evidence that validates, written as it stands, the record always comes about; its
      index comes about exactly when the evidence files pass their checks, and carries the guard's decision
      and the paths as they were written. */
  lemma WrittenToIndex(p: Guard.Plan, number: real -> Json, e: Record.Evidence, files: Object,
                       equals: (string, int) -> bool)
    requires Record.ValidateEvidence(e).Ok? && p.backendId == e.backendId && p.modelId == e.modelId
    ensures var record := Record.BuildRecord(Guard.BuildReport(p, number), Record.WriteEvidence(e));
      && record.Ok? && RecordNames(record.value, e.artifactDir, e.logPath)
      && (BuildIndex(record.value, files, equals).Ok? <==> EvidenceFiles(files, e.artifactDir).Ok?)
      && (BuildIndex(record.value, files, equals).Ok? ==>
          Reports(BuildIndex(record.value, files, equals).value, p, e, EvidenceFiles(files, e.artifactDir).value))
  {
    hide Guard.Evaluate;
    hide Guard.BuildReport;
    hide Record.BuildRecord;
    hide Record.Canonical;
    hide Record.WriteEvidence;
    hide BuildIndex;
    hide EvidenceFiles;
    hide IsBlank;
    hide ArtifactDir;
    hide PathInside;
    hide RecordPath;
    hide Get;
    var manifest := Record.WriteEvidence(e);
    WrittenRecordFields(p, number, e, equals);
    Record.ValidateExactly(e, Record.ValidateEvidence(e).value);
    hide Record.ValidateEvidence;
    Record.AcceptedNotBlank(e.artifactDir, e.logPath);
    Record.EvidenceFields(e);
    Record.CodesNotBlank(Guard.Evaluate(p).reason);
    var record := Record.BuildRecord(Guard.BuildReport(p, number), manifest).value;
    IndexOfFields(record, manifest, e, Guard.Evaluate(p).allowed, Guard.Code(Guard.Evaluate(p).reason), files, equals);
  }

  /** With the manifest that the builder makes, which normalises, every path of the index is in normal
      form besides. */
  lemma PreflightToIndex(p: Guard.Plan, number: real -> Json, e: Record.Evidence, files: Object,
                         equals: (string, int) -> bool)
    requires Record.BuildEvidenceManifest(e).Ok? && p.backendId == e.backendId && p.modelId == e.modelId
    ensures var v := Record.ValidateEvidence(e).value;
      var record := Record.BuildRecord(Guard.BuildReport(p, number), Record.BuildEvidenceManifest(e).value);
      && record.Ok?
      && (BuildIndex(record.value, files, equals).Ok? <==> EvidenceFiles(files, v.artifactDir).Ok?)
      && (BuildIndex(record.value, files, equals).Ok? ==>
          && Reports(BuildIndex(record.value, files, equals).value, p, v, EvidenceFiles(files, v.artifactDir).value)
          && (Distinct(files) ==> AllNormal(BuildIndex(record.value, files, equals).value)))
  {
    hide Guard.Evaluate;
    hide Guard.BuildReport;
    hide Record.BuildRecord;
    hide Record.WriteEvidence;
    hide Record.ValidateEvidence;
    hide BuildIndex;
    hide EvidenceFiles;
    hide Reports;
    hide AllNormal;
    hide IsNormal;
    hide RecordNames;
    var v := Record.ValidateEvidence(e).value;
    KeepsIds(e);
    WrittenToIndex(p, number, v, files, equals);
    ValidNormal(e);
    var record := Record.BuildRecord(Guard.BuildReport(p, number), Record.WriteEvidence(v)).value;
    if BuildIndex(record, files, equals).Ok? && Distinct(files) {
      IndexNormalExactly(record, files, equals, v.artifactDir, v.logPath);
    }
  }

  lemma KeepsIds(e: Record.Evidence)
    requires Record.ValidateEvidence(e).Ok?
    ensures var v := Record.ValidateEvidence(e).value;
      Record.ValidateEvidence(v) == Ok(v) && v.backendId == e.backendId && v.modelId == e.modelId
  {
    Record.ValidateExactly(e, Record.ValidateEvidence(e).value);
    Record.ValidEvidenceStable(e);
    hide Record.ValidateEvidence;
  }

  lemma ValidNormal(e: Record.Evidence)
    requires Record.ValidateEvidence(e).Ok?
    ensures var v := Record.ValidateEvidence(e).value; IsNormal(v.artifactDir) && IsNormal(v.logPath)
  {
    hide IsBlank;
    hide Components;
    hide Suffix;
    hide Command;
    hide Host;
    hide Ports;
    hide NonEmptyMapping;
    RelativePathStable(e.artifactDir, "artifact_dir");
    RelativePathStable(e.logPath, "log_path");
  }

  // ----- Paths that stay as they were written -----

  /** Evidence that validates, with the given texts for its directory and its log. */
  function RawEvidence(dir: string, log: string): Record.Evidence {
    Record.ExampleEvidence(log).(artifactDir := dir)
  }

  lemma RawValidates(dir: string, log: string)
    requires ArtifactDir(dir).Ok? && PathInside(log, ArtifactDir(dir).value, ".log", "log_path").Ok?
    ensures Record.ValidateEvidence(RawEvidence(dir, log)).Ok?
  {
    hide ArtifactDir;
    hide PathInside;
    hide Command;
    hide Host;
    hide Ports;
    hide NonEmptyMapping;
    hide IsBlank;
    Record.FieldsAccepted(log);
    var artifactDir := ArtifactDir(dir).value;
    var v := RawEvidence(artifactDir, PathInside(log, artifactDir, ".log", "log_path").value);
    assert Record.Checks(RawEvidence(dir, log), v);
    Record.ValidateExactly(RawEvidence(dir, log), v);
  }

  /** A record whose manifest holds the given texts, and whose index therefore does. */
  ghost predicate Indexes(record: Object, dir: string, log: string, equals: (string, int) -> bool) {
    && RecordNames(record, dir, log) && BuildIndex(record, [], equals).Ok?
    && BuildIndex(record, [], equals).value.artifactDir == dir
    && BuildIndex(record, [], equals).value.logPath == log
  }

  lemma RawIndexed(dir: string, log: string, number: real -> Json, equals: (string, int) -> bool)
    returns (record: Object)
    requires ArtifactDir(dir).Ok? && PathInside(log, ArtifactDir(dir).value, ".log", "log_path").Ok?
    ensures Indexes(record, dir, log, equals)
  {
    hide ArtifactDir;
    hide PathInside;
    hide Record.BuildRecord;
    hide Record.ValidateEvidence;
    hide Record.WriteEvidence;
    hide Guard.BuildReport;
    hide BuildIndex;
    hide RecordNames;
    RawValidates(dir, log);
    var p, e := Record.ExamplePlan(), RawEvidence(dir, log);
    WrittenToIndex(p, number, e, [], equals);
    assert EvidenceFiles([], dir) == Ok([]);
    record := Record.BuildRecord(Guard.BuildReport(p, number), Record.WriteEvidence(e)).value;
  }

  lemma ExampleTexts()
    ensures Join(ExampleDir()) == "artifacts/runtime/run"
    ensures Join(ExampleDir() + ["a.log"]) == "artifacts/runtime/run/a.log"
  {
    assert ExampleDir()[1..] == ["runtime", "run"] && ["runtime", "run"][1..] == ["run"];
    hide Join;
    JoinSnoc(ExampleDir(), "a.log");
  }

  lemma NormalText(text: string, parts: seq<string>)
    requires Root(text) == "" && Components(text) == parts && parts != [] && Join(parts) == text
    ensures IsNormal(text)
  {
    hide Components;
    hide Join;
    assert "" + Join(parts) == Join(parts);
  }

  lemma ExampleAccepted(dir: string, log: string)
    requires dir == "artifacts/runtime/run" && log == "artifacts/runtime/run/a.log"
    ensures ArtifactDir(dir) == Ok(dir) && PathInside(log, dir, ".log", "log_path") == Ok(log)
    ensures IsNormal(dir) && IsNormal(log)
  {
    hide PathInside;
    hide ArtifactDir;
    hide Components;
    hide ExampleDir;
    hide Join;
    hide IsNormal;
    var parts, file := ExampleDir(), ExampleDir() + ["a.log"];
    ExampleTexts();
    ExampleDirIsRuntimeDir();
    ArtifactDirAccepted(parts);
    assert "a" + "." + "log" == "a.log" && "." + "log" == ".log";
    FileAccepted(parts, "a", "log", "log_path");
    ComponentsOfJoin(file);
    RelativeTexts(dir, log);
    UnderRuntimeNotEmpty(parts);
    NormalText(dir, parts);
    NormalText(log, file);
  }

  lemma RelativeTexts(dir: string, log: string)
    requires dir == "artifacts/runtime/run" && log == "artifacts/runtime/run/a.log"
    ensures Root(dir) == "" && Root(log) == ""
  {}

  /** A doubled slash reads as a single one, so what it is written as has lost it. */
  lemma DoubledSlash(a: string, b: string)
    requires a != "" && a[0] != '/' && IsNormal(a + "/" + b)
    ensures Parse(a + "/" + ("/" + b)) == Parse(a + "/" + b) && !IsNormal(a + "/" + ("/" + b))
  {
    hide Components;
    ComponentsConcat(a, "/" + b);
    ComponentsConcat("", b);
    ComponentsConcat(a, b);
    NoComponents();
    assert "" + "/" + b == "/" + b;
    assert [] + Components(b) == Components(b);
    var t, u := a + "/" + b, a + "/" + ("/" + b);
    assert t[0] == a[0] && u[0] == a[0] && |u| == |t| + 1;
  }

  lemma NoComponents()
    ensures Components("") == []
  {}

  lemma SameParse(t: string, u: string, dir: string)
    requires t != "" && u != "" && Parse(t) == Parse(u)
    ensures ArtifactDir(t) == ArtifactDir(u)
    ensures PathInside(t, dir, ".log", "log_path") == PathInside(u, dir, ".log", "log_path")
  {
    hide Parse;
  }

  /** A record may name its directory with a doubled slash; then the path of the execution record keeps it,
      while the log, named without one, stays in normal form. */
  lemma RawDirStays(number: real -> Json, equals: (string, int) -> bool) returns (record: Object)
    ensures var dir, log := "artifacts//runtime/run", "artifacts/runtime/run/a.log";
      && Indexes(record, dir, log, equals) && !IsNormal(dir) && IsNormal(log)
      && !IsNormal(BuildIndex(record, [], equals).value.executionRecordPath)
  {
    hide PathInside;
    hide ArtifactDir;
    hide Parse;
    hide IsNormal;
    hide BuildIndex;
    hide RecordNames;
    hide AllNormal;
    var a, b, normal, log := "artifacts", "runtime/run", "artifacts/runtime/run", "artifacts/runtime/run/a.log";
    var dir := "artifacts//runtime/run";
    ExampleAccepted(normal, log);
    assert normal == a + "/" + b && dir == a + "/" + ("/" + b);
    DoubledSlash(a, b);
    SameParse(normal, dir, normal);
    record := RawIndexed(dir, log, number, equals);
    NoFiles();
    IndexNormalExactly(record, [], equals, dir, log);
  }

  lemma NoFiles()
    ensures Distinct<string, Json>([])
  {}

  /** A record may name its log with a doubled slash in a directory in normal form; the index keeps it. */
  lemma RawLogStays(number: real -> Json, equals: (string, int) -> bool) returns (record: Object)
    ensures var dir, log := "artifacts/runtime/run", "artifacts/runtime/run//a.log";
      Indexes(record, dir, log, equals) && IsNormal(dir) && !IsNormal(log)
  {
    hide PathInside;
    hide ArtifactDir;
    hide Parse;
    hide IsNormal;
    hide Indexes;
    var dir, b, normal := "artifacts/runtime/run", "a.log", "artifacts/runtime/run/a.log";
    var log := "artifacts/runtime/run//a.log";
    ExampleAccepted(dir, normal);
    assert normal == dir + "/" + b && log == dir + "/" + ("/" + b);
    DoubledSlash(dir, b);
    SameParse(normal, log, dir);
    record := RawIndexed(dir, log, number, equals);
  }
}
