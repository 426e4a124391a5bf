/** The fake unit of work: five insertion-ordered tables, cloned when a context is entered and again
    when it is committed, and repositories that write into the tables of their context in place. */
module UnitOfWork {
  import opened Wrappers
  import opened Dicts

  datatype Kind = Models | Nodes | Runs | Benchmarks | Artifacts

  /** The stored records, by their keys; the fields nothing here depends on are one text. */
  datatype Entity =
    | ModelCatalogEntry(modelId: string, details: string)
    | NodeInventoryEntry(nodeId: string, details: string)
    | InferenceRun(runId: string, modelId: string, details: string)
    | BenchmarkResult(resultId: string, runId: string, details: string)
    | ArtifactPointer(artifactId: string, runId: string, details: string)

  function KindOf(e: Entity): Kind {
    match e
    case ModelCatalogEntry(_, _) => Models
    case NodeInventoryEntry(_, _) => Nodes
    case InferenceRun(_, _, _) => Runs
    case BenchmarkResult(_, _, _) => Benchmarks
    case ArtifactPointer(_, _, _) => Artifacts
  }

  function KeyOf(e: Entity): string {
    match e
    case ModelCatalogEntry(id, _) => id
    case NodeInventoryEntry(id, _) => id
    case InferenceRun(id, _, _) => id
    case BenchmarkResult(id, _, _) => id
    case ArtifactPointer(id, _, _) => id
  }

  type Rows = Dict<string, Entity>

  // ----- What a unit of work means -----

  /** The contents of the five tables. */
  datatype Tables = Tables(models: Rows, nodes: Rows, runs: Rows, benchmarks: Rows, artifacts: Rows) {
    function Of(k: Kind): Rows {
      match k
      case Models => models
      case Nodes => nodes
      case Runs => runs
      case Benchmarks => benchmarks
      case Artifacts => artifacts
    }

    function Store(e: Entity): Tables {
      var rows := Put(Of(KindOf(e)), KeyOf(e), e);
      match KindOf(e)
      case Models => this.(models := rows)
      case Nodes => this.(nodes := rows)
      case Runs => this.(runs := rows)
      case Benchmarks => this.(benchmarks := rows)
      case Artifacts => this.(artifacts := rows)
    }
  }

  const NO_ROWS := Tables([], [], [], [], [])

  /** The committed tables; the tables of every context ever entered, in order; whether the last of
      them is active; and the `committed` flag. */
  datatype State = State(committed: Tables, contexts: seq<Tables>, active: bool, flag: bool)

  const INITIAL := State(NO_ROWS, [], false, false)

  /** Writes go through a repository of any context, the active one or one long ended. */
  datatype Operation = Enter | Exit | Commit | Rollback | Add(context: nat, entity: Entity)

  /** A commit outside a context raises and changes nothing. */
  predicate Commits(s: State, op: Operation) {
    op.Commit? && s.active && s.contexts != []
  }

  function Step(s: State, op: Operation): State {
    match op
    case Enter => s.(contexts := s.contexts + [s.committed], active := true, flag := false)
    case Exit => s.(active := false)
    case Commit => if Commits(s, op) then s.(committed := s.contexts[|s.contexts| - 1], flag := true) else s
    case Rollback => s.(flag := false)
    case Add(c, e) => if c < |s.contexts| then s.(contexts := s.contexts[c := s.contexts[c].Store(e)]) else s
  }

  function Run(ops: seq<Operation>): State {
    if ops == [] then INITIAL else Step(Run(ops[..|ops| - 1]), ops[|ops| - 1])
  }

  // ----- The objects -----

  /** A mutable dictionary. */
  class Table {
    var rows: Rows

    constructor (rows: Rows)
      ensures this.rows == rows
    {
      this.rows := rows;
    }
  }

  class PersistenceState {
    const models: Table
    const nodes: Table
    const runs: Table
    const benchmarks: Table
    const artifacts: Table

    constructor ()
      ensures Separate() && fresh(Footprint()) && Contents() == NO_ROWS
    {
      models := new Table([]);
      nodes := new Table([]);
      runs := new Table([]);
      benchmarks := new Table([]);
      artifacts := new Table([]);
    }

    constructor Copy(from: PersistenceState)
      ensures Separate() && fresh(Footprint()) && Contents() == from.Contents()
    {
      models := new Table(from.models.rows);
      nodes := new Table(from.nodes.rows);
      runs := new Table(from.runs.rows);
      benchmarks := new Table(from.benchmarks.rows);
      artifacts := new Table(from.artifacts.rows);
    }

    function At(k: Kind): Table {
      match k
      case Models => models
      case Nodes => nodes
      case Runs => runs
      case Benchmarks => benchmarks
      case Artifacts => artifacts
    }

    ghost function Footprint(): set<Table> {
      {models, nodes, runs, benchmarks, artifacts}
    }

    ghost predicate Separate() {
      forall k, l :: k != l ==> At(k) != At(l)
    }

    ghost function Contents(): Tables
      reads Footprint()
    {
      Tables(models.rows, nodes.rows, runs.rows, benchmarks.rows, artifacts.rows)
    }

    method Clone() returns (copy: PersistenceState)
      ensures fresh(copy) && copy.Separate() && fresh(copy.Footprint()) && copy.Contents() == Contents()
    {
      copy := new PersistenceState.Copy(this);
    }
  }

  /** A repository holds a reference to its table, not a copy. */
  class Repository {
    const kind: Kind
    const items: Table

    constructor (kind: Kind, items: Table)
      ensures this.kind == kind && this.items == items
    {
      this.kind, this.items := kind, items;
    }

    method Add(e: Entity)
      requires KindOf(e) == kind
      modifies items
      ensures items.rows == Put(old(items.rows), KeyOf(e), e)
    {
      items.rows := Put(items.rows, KeyOf(e), e);
    }

    method Find(id: string) returns (found: Option<Entity>)
      ensures found == Get(items.rows, id)
    {
      found := Get(items.rows, id);
    }
  }

  /** The five repositories a context offers; they outlive it. */
  datatype Repositories = Repositories(
    models: Repository, nodes: Repository, runs: Repository, benchmarks: Repository, artifacts: Repository) {
    function At(k: Kind): Repository {
      match k
      case Models => models
      case Nodes => nodes
      case Runs => runs
      case Benchmarks => benchmarks
      case Artifacts => artifacts
    }

    /** Every repository aliases the table of its kind. */
    ghost predicate Alias(s: PersistenceState) {
      forall k :: At(k).kind == k && At(k).items == s.At(k)
    }
  }

  method OpenRepositories(s: PersistenceState) returns (r: Repositories)
    ensures r.Alias(s)
  {
    var models := new Repository(Models, s.models);
    var nodes := new Repository(Nodes, s.nodes);
    var runs := new Repository(Runs, s.runs);
    var benchmarks := new Repository(Benchmarks, s.benchmarks);
    var artifacts := new Repository(Artifacts, s.artifacts);
    return Repositories(models, nodes, runs, benchmarks, artifacts);
  }

  /** No two contexts share a table, and none shares one with the committed state. */
  ghost predicate Apart(contexts: seq<PersistenceState>, committed: PersistenceState) {
    && committed.Separate()
    && (forall i :: 0 <= i < |contexts| ==> contexts[i].Separate())
    && (forall i :: 0 <= i < |contexts| ==> contexts[i].Footprint() !! committed.Footprint())
    && (forall i, j :: 0 <= i < j < |contexts| ==> contexts[i].Footprint() !! contexts[j].Footprint())
  }

  lemma ApartSnoc(contexts: seq<PersistenceState>, committed: PersistenceState, s: PersistenceState)
    requires Apart(contexts, committed) && s.Separate() && s.Footprint() !! committed.Footprint()
    requires forall i :: 0 <= i < |contexts| ==> contexts[i].Footprint() !! s.Footprint()
    ensures Apart(contexts + [s], committed)
  {
    hide PersistenceState.Footprint;
    hide PersistenceState.Separate;
  }

  datatype Error = NotActive

  class FakeUnitOfWork {
    var committedState: PersistenceState
    var working: PersistenceState?
    var committed: bool
    var repositories: Option<Repositories>
    /** The working state of every context ever entered. */
    ghost var contexts: seq<PersistenceState>

    constructor ()
      ensures Valid() && Represents(INITIAL)
      ensures contexts == [] && fresh(AllTables())
    {
      committedState := new PersistenceState();
      working, committed, repositories, contexts := null, false, None, [];
    }

    ghost predicate Valid()
      reads this
    {
      && (working != null ==> contexts != [] && working == contexts[|contexts| - 1])
      && (repositories.Some? ==> contexts != [] && repositories.value.Alias(contexts[|contexts| - 1]))
      && Apart(contexts, committedState)
    }

    ghost function AllTables(): set<Table>
      reads this
    {
      committedState.Footprint() + set i, t | 0 <= i < |contexts| && t in contexts[i].Footprint() :: t
    }

    /** The objects hold what the state says. */
    ghost predicate Represents(s: State)
      reads this, AllTables()
    {
      && s.committed == committedState.Contents()
      && |s.contexts| == |contexts|
      && (forall i :: 0 <= i < |contexts| ==> s.contexts[i] == contexts[i].Contents())
      && s.active == (working != null) && s.flag == committed
    }

    method Enter(ghost s: State)
      requires Valid() && Represents(s)
      modifies this
      ensures Valid() && Represents(Step(s, Operation.Enter))
      ensures |contexts| == |old(contexts)| + 1 && contexts[..|old(contexts)|] == old(contexts)
      ensures fresh(contexts[|old(contexts)|].Footprint()) && committedState == old(committedState)
      ensures repositories.Some?
    {
      var state := committedState.Clone();
      working := state;
      committed := false;
      var handles := OpenRepositories(state);
      repositories := Some(handles);
      ApartSnoc(contexts, committedState, state);
      contexts := contexts + [state];
    }

    method Exit(ghost s: State)
      requires Valid() && Represents(s)
      modifies this`working, this`committed
      ensures Valid() && Represents(Step(s, Operation.Exit))
    {
      if !committed {
        Rollback(s);
      }
      working := null;
    }

    method Commit(ghost s: State) returns (r: Result<(), Error>)
      requires Valid() && Represents(s)
      modifies this`committedState, this`committed
      ensures Valid() && Represents(Step(s, Operation.Commit))
      ensures r == if Commits(s, Operation.Commit) then Ok(()) else Raised(NotActive)
      ensures committedState == old(committedState) || fresh(committedState.Footprint())
    {
      if working == null {
        return Raised(NotActive);
      }
      committedState := working.Clone();
      committed := true;
      return Ok(());
    }

    method Rollback(ghost s: State)
      requires Valid() && Represents(s)
      modifies this`committed
      ensures Valid() && Represents(Step(s, Operation.Rollback))
    {
      committed := false;
    }
  }

  /** A write through any repository of any context, current or stale, changes that context's tables
      and nothing else that the unit of work holds. */
  method AddThrough(uow: FakeUnitOfWork, repository: Repository, context: nat, e: Entity, ghost s: State)
    requires uow.Valid() && uow.Represents(s) && context < |uow.contexts|
    requires repository.kind == KindOf(e) && repository.items == uow.contexts[context].At(KindOf(e))
    modifies repository.items
    ensures uow.Valid() && uow.Represents(Step(s, Add(context, e)))
  {
    hide Put;
    ghost var written := uow.contexts[context];
    repository.Add(e);
    OthersApart(uow.contexts, uow.committedState, context);
    FieldsApart(written);
    assert written.Contents() == s.contexts[context].Store(e);
  }

  lemma FieldsApart(s: PersistenceState)
    requires s.Separate()
    ensures s.models != s.nodes && s.models != s.runs && s.models != s.benchmarks && s.models != s.artifacts
    ensures s.nodes != s.runs && s.nodes != s.benchmarks && s.nodes != s.artifacts
    ensures s.runs != s.benchmarks && s.runs != s.artifacts && s.benchmarks != s.artifacts
  {
    assert s.At(Models) != s.At(Nodes) && s.At(Models) != s.At(Runs) && s.At(Models) != s.At(Benchmarks);
    assert s.At(Models) != s.At(Artifacts) && s.At(Nodes) != s.At(Runs) && s.At(Nodes) != s.At(Benchmarks);
    assert s.At(Nodes) != s.At(Artifacts) && s.At(Runs) != s.At(Benchmarks) && s.At(Runs) != s.At(Artifacts);
    assert s.At(Benchmarks) != s.At(Artifacts);
  }

  lemma OthersApart(contexts: seq<PersistenceState>, committed: PersistenceState, c: nat)
    requires Apart(contexts, committed) && c < |contexts|
    ensures contexts[c].Separate() && contexts[c].Footprint() !! committed.Footprint()
    ensures forall i :: 0 <= i < |contexts| && i != c ==> contexts[i].Footprint() !! contexts[c].Footprint()
  {}

  /** The repositories of every context alias that context's tables. */
  ghost predicate Handles(contexts: seq<PersistenceState>, handles: seq<Repositories>) {
    |handles| == |contexts| && forall c :: 0 <= c < |handles| ==> handles[c].Alias(contexts[c])
  }

  method Perform(uow: FakeUnitOfWork, handles: seq<Repositories>, op: Operation, ghost s: State)
    returns (handles': seq<Repositories>)
    requires uow.Valid() && uow.Represents(s) && Handles(uow.contexts, handles)
    modifies uow, uow.AllTables()
    ensures uow.Valid() && uow.Represents(Step(s, op)) && Handles(uow.contexts, handles')
    ensures fresh(uow.AllTables() - old(uow.AllTables()))
  {
    hide Step;
    hide Apart;
    handles' := handles;
    match op
    case Enter =>
      uow.Enter(s);
      handles' := handles + [uow.repositories.value];
    case Exit =>
      uow.Exit(s);
    case Commit =>
      var _ := uow.Commit(s);
    case Rollback =>
      uow.Rollback(s);
    case Add(c, e) =>
      if c < |handles| {
        assert uow.contexts[c].At(KindOf(e)) in uow.contexts[c].Footprint();
        AddThrough(uow, handles[c].At(KindOf(e)), c, e, s);
      } else {
        NoSuchContext(s, c, e);
      }
  }

  /** Every interleaving of operations, run on real objects with every repository ever handed out
      still in use, ends in the state that the operations determine. */
  method Replay(ops: seq<Operation>) returns (uow: FakeUnitOfWork, handles: seq<Repositories>)
    ensures uow.Valid() && uow.Represents(Run(ops)) && Handles(uow.contexts, handles)
  {
    hide Step;
    hide Run;
    hide Handles;
    hide FakeUnitOfWork.Valid;
    hide FakeUnitOfWork.Represents;
    uow := new FakeUnitOfWork();
    handles := [];
    NothingRun();
    NoHandles();
    for n := 0 to |ops|
      invariant fresh(uow) && fresh(uow.AllTables())
      invariant uow.Valid() && uow.Represents(Run(ops[..n])) && Handles(uow.contexts, handles)
    {
      RunNext(ops, n);
      handles := Perform(uow, handles, ops[n], Run(ops[..n]));
    }
    assert ops[..|ops|] == ops;
  }

  lemma NothingRun()
    ensures Run([]) == INITIAL
  {}

  lemma NoHandles()
    ensures Handles([], [])
  {}

  lemma RunNext(ops: seq<Operation>, n: nat)
    requires n < |ops|
    ensures Run(ops[..n + 1]) == Step(Run(ops[..n]), ops[n])
  {
    assert ops[..n + 1][..n] == ops[..n];
  }

  lemma NoSuchContext(s: State, c: nat, e: Entity)
    requires c >= |s.contexts|
    ensures Step(s, Add(c, e)) == s
  {}
}
