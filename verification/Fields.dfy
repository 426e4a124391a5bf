/** Reading the fields of a JSON object and checking their types, as all the canonical records do. */
module Fields {
  import opened Wrappers
  import opened Text
  import opened Dicts
  import opened JsonText
  import opened Paths

  type Object = Dict<string, Json>

  predicate IsBlank(s: string) {
    Strip(s) == ""
  }

  /** A string that is not only white space, returned as it is. */
  function NonEmptyString(value: Option<Json>, field: string): Result<string, ValueError> {
    match value
    case Some(Str(s)) => if IsBlank(s) then Raised(ValueError(field)) else Ok(s)
    case _ => Raised(ValueError(field))
  }

  function MappingField(source: Object, field: string): Result<Object, ValueError> {
    match Get<string, Json>(source, field)
    case Some(Obj(fields)) => Ok(fields)
    case _ => Raised(ValueError(field))
  }

  function SequenceField(source: Object, field: string): Result<seq<Json>, ValueError> {
    match Get<string, Json>(source, field)
    case Some(Arr(items)) => Ok(items)
    case _ => Raised(ValueError(field))
  }

  function StringField(source: Object, field: string): Result<string, ValueError> {
    NonEmptyString(Get(source, field), field)
  }

  /** At least one part, and every part a non-empty string. */
  function Command(parts: seq<Json>): (r: Result<seq<Json>, ValueError>)
    ensures r.Ok? ==> r.value == parts
  {
    if parts == [] || exists i :: 0 <= i < |parts| && (!parts[i].Str? || parts[i].s == "")
    then Raised(ValueError("command"))
    else Ok(parts)
  }

  function NonEmptyMapping(value: Object, field: string): (r: Result<Object, ValueError>)
    ensures r.Ok? ==> r.value == value
  {
    if value == [] then Raised(ValueError(field)) else Ok(value)
  }

  /** A non-empty mapping that has the labels every host record needs. */
  function Host(host: Object): (r: Result<Object, ValueError>)
    ensures r.Ok? ==> r.value == host
  {
    var normalized :- NonEmptyMapping(host, "host");
    var keys := Keys(normalized);
    if "os" in keys && "chip" in keys && "memory_gib" in keys then Ok(normalized) else Raised(ValueError("host"))
  }

  /** Non-empty names with integer ports within the bounds; booleans are no integers here. */
  function Ports(ports: Object, low: int, high: Option<int>): (r: Result<Object, ValueError>)
    ensures r.Ok? ==> r.value == ports
  {
    var normalized :- NonEmptyMapping(ports, "ports");
    if exists i :: 0 <= i < |normalized| && !IsPort(normalized[i], low, high) then Raised(ValueError("ports"))
    else Ok(normalized)
  }

  predicate IsPort(e: Entry<string, Json>, low: int, high: Option<int>) {
    e.key != "" && e.value.Int? && low <= e.value.n && (high.Some? ==> e.value.n <= high.value)
  }

  /** Text with a character that is not white space is not blank. */
  lemma NotBlank(s: string)
    requires s != "" && !IsSpace(s[0])
    ensures !IsBlank(s)
  {
    TrimStops(s, IsSpace);
    TrimRightKeeps(s);
  }

  lemma {:induction false} TrimRightKeeps(s: string)
    requires s != "" && !IsSpace(s[0])
    ensures TrimRight(s, IsSpace) != ""
  {
    if IsSpace(s[|s| - 1]) {
      TrimRightKeeps(s[..|s| - 1]);
    }
  }

  lemma {:induction false} BlankIsSpace(s: string)
    requires IsBlank(s)
    ensures forall i :: 0 <= i < |s| ==> IsSpace(s[i])
  {
    if s != "" && !IsSpace(s[0]) {
      NotBlank(s);
    } else if s != "" {
      BlankIsSpace(s[1..]);
    }
  }

  /** Text of white space alone, or empty. */
  ghost predicate OnlySpace(s: string) {
    forall c :: c in s ==> IsSpace(c)
  }

  lemma BlankExactly(s: string)
    ensures IsBlank(s) <==> OnlySpace(s)
  {
    if IsBlank(s) {
      BlankIsSpace(s);
    }
    if OnlySpace(s) {
      SpaceIsBlank(s);
    }
  }

  lemma {:induction false} SpaceIsBlank(s: string)
    requires OnlySpace(s)
    ensures TrimLeft(s, IsSpace) == "" && IsBlank(s)
  {
    if s != "" {
      assert s[0] in s && forall c :: c in s[1..] ==> c in s;
      SpaceIsBlank(s[1..]);
    }
  }

  /** White space alone makes at most one component of a path. */
  lemma BlankHasOnePart(s: string)
    requires IsBlank(s)
    ensures |Components(s)| <= 1
  {
    BlankIsSpace(s);
    assert SlashAt(s) == |s|;
    ComponentsAt(s);
  }

  lemma FileNotBlank(dir: seq<string>, name: string)
    requires IsRuntimeDir(dir) && IsComponent(name)
    ensures !IsBlank(Join(dir + [name]))
  {
    hide Join;
    hide IsBlank;
    JoinStarts(dir + [name]);
    assert (dir + [name])[0] == dir[0];
    NotBlank(Join(dir + [name]));
  }

  // ----- The fields themselves -----

  /** The string, the object or the array under a name; empty when there is none. */
  function TextOf(source: Object, field: string): string {
    match Get<string, Json>(source, field)
    case Some(Str(s)) => s
    case _ => ""
  }

  function ObjectOf(source: Object, field: string): Object {
    match Get<string, Json>(source, field)
    case Some(Obj(fields)) => fields
    case _ => []
  }

  function ItemsOf(source: Object, field: string): seq<Json> {
    match Get<string, Json>(source, field)
    case Some(Arr(items)) => items
    case _ => []
  }

  ghost predicate HasText(source: Object, field: string) {
    !OnlySpace(TextOf(source, field))
  }

  ghost predicate IsCommand(parts: seq<Json>) {
    parts != [] && forall p :: p in parts ==> p.Str? && p.s != ""
  }

  ghost predicate IsHost(host: Object) {
    Get(host, "os").Some? && Get(host, "chip").Some? && Get(host, "memory_gib").Some?
  }

  ghost predicate ArePorts(ports: Object, low: int, high: Option<int>) {
    ports != []
    && forall e :: e in ports ==>
         e.key != "" && e.value.Int? && e.value.n >= low && (high.Some? ==> e.value.n <= high.value)
  }

  lemma StringFieldExactly(source: Object, field: string)
    ensures StringField(source, field) ==
      if HasText(source, field) then Ok(TextOf(source, field)) else Raised(ValueError(field))
  {
    hide IsBlank;
    hide OnlySpace;
    hide Get;
    BlankExactly(TextOf(source, field));
    NothingIsBlank();
  }

  lemma NothingIsBlank()
    ensures IsBlank("") && OnlySpace("")
  {}

  lemma CommandExactly(parts: seq<Json>)
    ensures Command(parts).Ok? <==> IsCommand(parts)
  {
    if Command(parts).Ok? {
      assert forall p :: p in parts ==> p.Str? && p.s != "";
    }
  }

  lemma HostExactly(host: Object)
    ensures Host(host).Ok? <==> IsHost(host)
  {
    hide Get;
    hide Keys;
    GetIsKey(host, "os");
    GetIsKey(host, "chip");
    GetIsKey(host, "memory_gib");
    if host == [] {
      GetMissing(host, "os");
    }
  }

  lemma PortsExactly(ports: Object, low: int, high: Option<int>)
    ensures Ports(ports, low, high).Ok? <==> ArePorts(ports, low, high)
  {
    if Ports(ports, low, high).Ok? {
      forall e | e in ports
        ensures IsPort(e, low, high)
      {
        var i :| 0 <= i < |ports| && ports[i] == e;
      }
    }
    if ArePorts(ports, low, high) {
      forall i | 0 <= i < |ports|
        ensures IsPort(ports[i], low, high)
      {
        assert ports[i] in ports;
      }
    }
  }

  /** A relative path whose components start with `artifacts`, `runtime` and a third one, without a step
      upwards. */
  ghost predicate IsArtifactDir(dir: string) {
    var parts := Components(dir);
    && IsRelative(dir) && ".." !in parts && |parts| >= 3 && parts[0] == "artifacts" && parts[1] == "runtime"
  }

  /** A relative path that stays inside the directory and has the extension. */
  ghost predicate IsFileIn(path: string, dir: string, extension: string) {
    IsRelative(path) && StaysInside(Components(dir), Components(path)) && HasExtension(Components(path), extension)
  }

  lemma DirExactly(dir: string)
    ensures ArtifactDir(dir) == if IsArtifactDir(dir) then Ok(Join(Components(dir))) else ArtifactDir(dir)
    ensures ArtifactDir(dir).Ok? <==> IsArtifactDir(dir)
    ensures IsArtifactDir(dir) ==> !OnlySpace(dir) && Components(Join(Components(dir))) == Components(dir)
  {
    hide Components;
    hide ArtifactDir;
    hide Join;
    hide OnlySpace;
    ArtifactDirExactly(dir, Join(Components(dir)));
    if ArtifactDir(dir).Ok? {
      ArtifactDirExactly(dir, ArtifactDir(dir).value);
    }
    ComponentsAreComponents(dir);
    ComponentsOfJoin(Components(dir));
    if IsArtifactDir(dir) {
      BlankExactly(dir);
      if IsBlank(dir) {
        BlankHasOnePart(dir);
      }
    }
  }

  lemma FileExactly(path: string, dir: string, written: string, extension: string, field: string)
    requires extension != "" && extension[0] == '.' && '.' !in extension[1..]
    requires IsArtifactDir(dir) && written == Join(Components(dir))
    ensures PathInside(path, written, extension, field).Ok? <==> IsFileIn(path, dir, extension)
    ensures PathInside(path, written, extension, field).Ok? ==>
      PathInside(path, written, extension, field) == Ok(Written(path)) && !OnlySpace(path)
  {
    hide Components;
    hide PathInside;
    hide Join;
    hide OnlySpace;
    hide HasExtension;
    DirExactly(dir);
    PathInsideExactly(path, written, extension, field, Written(path));
    var r := PathInside(path, written, extension, field);
    if r.Ok? {
      PathInsideExactly(path, written, extension, field, r.value);
      BlankExactly(path);
      if IsBlank(path) {
        BlankHasOnePart(path);
      }
    }
  }
}
