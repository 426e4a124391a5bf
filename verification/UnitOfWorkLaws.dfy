/** Isolation of transactions, over every interleaving of contexts, writes, commits and rollbacks. */
module UnitOfWorkLaws {
  import opened Wrappers
  import opened Dicts
  import opened UnitOfWork

  lemma {:induction false} ActiveHasContext(ops: seq<Operation>)
    ensures Run(ops).active ==> Run(ops).contexts != []
  {
    if ops != [] {
      ActiveHasContext(ops[..|ops| - 1]);
    }
  }

  function RunFrom(s: State, ops: seq<Operation>): State {
    if ops == [] then s else Step(RunFrom(s, ops[..|ops| - 1]), ops[|ops| - 1])
  }

  lemma {:induction false} RunSplits(first: seq<Operation>, rest: seq<Operation>)
    ensures Run(first + rest) == RunFrom(Run(first), rest)
  {
    if rest == [] {
      assert first + rest == first;
    } else {
      assert (first + rest)[..|first + rest| - 1] == first + rest[..|rest| - 1];
      RunSplits(first, rest[..|rest| - 1]);
    }
  }

  // ----- What is committed -----

  /** The index of the last operation that committed; -1 if none did. */
  function LastCommit(ops: seq<Operation>): (n: int)
    ensures -1 <= n < |ops|
  {
    if ops == [] then -1
    else
      var before := ops[..|ops| - 1];
      if Commits(Run(before), ops[|ops| - 1]) then |ops| - 1 else LastCommit(before)
  }

  lemma {:induction false} LastCommitIsLast(ops: seq<Operation>, m: nat)
    requires m < |ops|
    ensures var n := LastCommit(ops);
      && (m == n ==> Commits(Run(ops[..m]), ops[m]))
      && (m > n ==> !Commits(Run(ops[..m]), ops[m]))
  {
    hide Run;
    var before := ops[..|ops| - 1];
    if m < |before| {
      assert before[..m] == ops[..m];
      LastCommitIsLast(before, m);
    }
  }

  lemma StepCommitted(s: State, op: Operation)
    ensures Step(s, op).committed == if Commits(s, op) then s.contexts[|s.contexts| - 1] else s.committed
  {
    hide Tables.Store;
  }

  /** The committed tables are the working tables of the active context as they stood at the last
      commit, and empty if nothing was committed: no other operation, no write through any handle,
      and no rollback ever changes them. */
  lemma {:induction false} CommittedIsLastCommit(ops: seq<Operation>)
    ensures var n := LastCommit(ops);
      if n < 0 then Run(ops).committed == NO_ROWS
      else var s := Run(ops[..n]); s.contexts != [] && Run(ops).committed == s.contexts[|s.contexts| - 1]
  {
    if ops != [] {
      hide Step;
      var before := ops[..|ops| - 1];
      CommittedIsLastCommit(before);
      StepCommitted(Run(before), ops[|ops| - 1]);
      var n := LastCommit(before);
      if n >= 0 {
        assert before[..n] == ops[..n];
      }
    }
  }

  // ----- What a context reads -----

  /** A stored record is found under its key in the table of its kind, and nothing else changes. */
  lemma StoredIsFound(t: Tables, e: Entity, k: Kind, id: string)
    ensures Get(t.Store(e).Of(k), id)
         == if k == KindOf(e) && id == KeyOf(e) then Some(e) else Get(t.Of(k), id)
  {
    hide Put;
    hide Get;
    GetPut(t.Of(KindOf(e)), KeyOf(e), e, id);
  }

  /** Looking up `id` after `e` was stored under `key`. */
  ghost predicate StoredUnder(before: Rows, after: Rows, key: string, e: Entity) {
    forall id :: Get(after, id) == if id == key then Some(e) else Get(before, id)
  }

  lemma PutStores(d: Rows, key: string, e: Entity)
    ensures StoredUnder(d, Put(d, key, e), key, e)
  {
    hide Get;
    hide Put;
    forall id
      ensures Get(Put(d, key, e), id) == if id == key then Some(e) else Get(d, id)
    {
      GetPut(d, key, e, id);
    }
  }

  /** Each kind of record is stored in its own table under its own id, and the other four tables are
      untouched. */
  lemma StoredByKind(t: Tables, key: string, other: string, details: string)
    ensures var e := ModelCatalogEntry(key, details);
      StoredUnder(t.models, t.Store(e).models, key, e) && t.Store(e) == t.(models := t.Store(e).models)
    ensures var e := NodeInventoryEntry(key, details);
      StoredUnder(t.nodes, t.Store(e).nodes, key, e) && t.Store(e) == t.(nodes := t.Store(e).nodes)
    ensures var e := InferenceRun(key, other, details);
      StoredUnder(t.runs, t.Store(e).runs, key, e) && t.Store(e) == t.(runs := t.Store(e).runs)
    ensures var e := BenchmarkResult(key, other, details);
      StoredUnder(t.benchmarks, t.Store(e).benchmarks, key, e) && t.Store(e) == t.(benchmarks := t.Store(e).benchmarks)
    ensures var e := ArtifactPointer(key, other, details);
      StoredUnder(t.artifacts, t.Store(e).artifacts, key, e) && t.Store(e) == t.(artifacts := t.Store(e).artifacts)
  {
    hide StoredUnder;
    hide Put;
    PutStores(t.models, key, ModelCatalogEntry(key, details));
    PutStores(t.nodes, key, NodeInventoryEntry(key, details));
    PutStores(t.runs, key, InferenceRun(key, other, details));
    PutStores(t.benchmarks, key, BenchmarkResult(key, other, details));
    PutStores(t.artifacts, key, ArtifactPointer(key, other, details));
  }

  /** Results of one run do not replace each other: with different ids both are found after a commit. */
  lemma ResultsOfOneRun(ops: seq<Operation>, first: string, second: string, run: string, d: string, d': string)
    requires Run(ops).active && first != second
    ensures var c, r, r' := |Run(ops).contexts| - 1, BenchmarkResult(first, run, d), BenchmarkResult(second, run, d');
      && c >= 0
      && var committed := Run(ops + [Add(c, r), Add(c, r'), Commit]).committed;
         Get(committed.benchmarks, first) == Some(r) && Get(committed.benchmarks, second) == Some(r')
  {
    hide Run;
    hide Tables.Store;
    hide Get;
    ActiveHasContext(ops);
    var s, c := Run(ops), |Run(ops).contexts| - 1;
    var r, r' := BenchmarkResult(first, run, d), BenchmarkResult(second, run, d');
    RunSplits(ops, [Add(c, r), Add(c, r'), Commit]);
    RunFromSnoc(s, [Add(c, r), Add(c, r')], Commit);
    RunFromSnoc(s, [Add(c, r)], Add(c, r'));
    RunFromSnoc(s, [], Add(c, r));
    assert [Add(c, r), Add(c, r'), Commit] == [Add(c, r), Add(c, r')] + [Commit];
    assert [Add(c, r), Add(c, r')] == [Add(c, r)] + [Add(c, r')] && [Add(c, r)] == [] + [Add(c, r)];
    hide RunFrom;
    StoredByKind(s.contexts[c], first, run, d);
    StoredByKind(s.contexts[c].Store(r), second, run, d');
    var t := s.contexts[c].Store(r).Store(r');
    assert Run(ops + [Add(c, r), Add(c, r'), Commit]).committed == t;
    assert Get(t.benchmarks, first) == Get(s.contexts[c].Store(r).benchmarks, first);
  }

  lemma RunFromSnoc(s: State, ops: seq<Operation>, op: Operation)
    ensures RunFrom(s, []) == s && RunFrom(s, ops + [op]) == Step(RunFrom(s, ops), op)
  {
    hide Step;
    assert (ops + [op])[..|ops|] == ops;
  }

  /** Storing, in order, what the operations write into one context. */
  function Written(start: Tables, ops: seq<Operation>, context: nat): Tables {
    if ops == [] then start
    else
      var before, last := Written(start, ops[..|ops| - 1], context), ops[|ops| - 1];
      if last.Add? && last.context == context then before.Store(last.entity) else before
  }

  /** The last record that the operations store into a context under a kind and a key. */
  function LastWrite(ops: seq<Operation>, context: nat, k: Kind, id: string): Option<Entity> {
    if ops == [] then None
    else
      var last := ops[|ops| - 1];
      if last.Add? && last.context == context && KindOf(last.entity) == k && KeyOf(last.entity) == id
      then Some(last.entity)
      else LastWrite(ops[..|ops| - 1], context, k, id)
  }

  lemma {:induction false} WrittenFinds(start: Tables, ops: seq<Operation>, context: nat, k: Kind, id: string)
    ensures Get(Written(start, ops, context).Of(k), id) ==
      if LastWrite(ops, context, k, id).Some? then LastWrite(ops, context, k, id) else Get(start.Of(k), id)
  {
    if ops != [] {
      hide Tables.Store;
      hide Get;
      WrittenFinds(start, ops[..|ops| - 1], context, k, id);
      var last := ops[|ops| - 1];
      if last.Add? {
        StoredIsFound(Written(start, ops[..|ops| - 1], context), last.entity, k, id);
      }
    }
  }

  lemma StepContext(s: State, op: Operation, c: nat)
    requires c < |s.contexts|
    ensures |Step(s, op).contexts| > c
    ensures Step(s, op).contexts[c] ==
      if op.Add? && op.context == c then s.contexts[c].Store(op.entity) else s.contexts[c]
  {
    hide Tables.Store;
  }

  lemma {:induction false} ContextFrom(s: State, rest: seq<Operation>, c: nat)
    requires c < |s.contexts|
    ensures var s' := RunFrom(s, rest); |s'.contexts| > c && s'.contexts[c] == Written(s.contexts[c], rest, c)
  {
    if rest != [] {
      hide Step;
      hide Tables.Store;
      ContextFrom(s, rest[..|rest| - 1], c);
      StepContext(RunFrom(s, rest[..|rest| - 1]), rest[|rest| - 1], c);
    }
  }

  /** From the moment it is entered a context reads exactly the tables committed then plus its own
      writes, in order: no commit, rollback, exit or write of another context shows in it. */
  lemma ContextReads(ops: seq<Operation>, rest: seq<Operation>)
    ensures var s, c := Run(ops), |Run(ops).contexts|;
      var s' := Run(ops + [Enter] + rest);
      |s'.contexts| > c && s'.contexts[c] == Written(s.committed, rest, c)
  {
    RunSplits(ops + [Enter], rest);
    assert (ops + [Enter])[..|ops|] == ops;
    ContextFrom(Run(ops + [Enter]), rest, |Run(ops).contexts|);
  }

  /** So a lookup in a context finds its own last write under the key, and otherwise what was committed
      when it was entered. */
  lemma ContextFinds(ops: seq<Operation>, rest: seq<Operation>, k: Kind, id: string)
    ensures var c, s' := |Run(ops).contexts|, Run(ops + [Enter] + rest);
      |s'.contexts| > c && Get(s'.contexts[c].Of(k), id) ==
        if LastWrite(rest, c, k, id).Some? then LastWrite(rest, c, k, id) else Get(Run(ops).committed.Of(k), id)
  {
    hide Run;
    hide Written;
    hide LastWrite;
    hide Get;
    ContextReads(ops, rest);
    WrittenFinds(Run(ops).committed, rest, |Run(ops).contexts|, k, id);
  }

  /** A lookup through a repository object of context `c`, on objects that went through any operations
      before and after the context was entered: it finds the context's own last write under the key, and
      otherwise what was committed when it was entered. */
  method LookUp(uow: FakeUnitOfWork, handles: seq<Repositories>, c: nat, k: Kind, id: string,
                ghost ops: seq<Operation>, ghost rest: seq<Operation>)
    returns (found: Option<Entity>)
    requires uow.Valid() && uow.Represents(Run(ops + [Enter] + rest)) && Handles(uow.contexts, handles)
    requires c == |Run(ops).contexts|
    ensures found ==
      if LastWrite(rest, c, k, id).Some? then LastWrite(rest, c, k, id) else Get(Run(ops).committed.Of(k), id)
  {
    hide Run;
    hide LastWrite;
    hide FakeUnitOfWork.Valid;
    ContextFinds(ops, rest, k, id);
    assert handles[c].Alias(uow.contexts[c]);
    ContentsOf(uow.contexts[c], k);
    found := handles[c].At(k).Find(id);
  }

  lemma ContentsOf(s: PersistenceState, k: Kind)
    ensures s.Contents().Of(k) == s.At(k).rows
  {}

  // ----- Stale writes -----

  /** The context has ended: it is not the active one and never will be again. */
  predicate Ended(s: State, c: nat) {
    c < |s.contexts| && (c + 1 < |s.contexts| || !s.active)
  }

  /** Equal in everything but the tables of one ended context. */
  ghost predicate SameBut(s: State, t: State, c: nat) {
    && s.committed == t.committed && s.active == t.active && s.flag == t.flag
    && |s.contexts| == |t.contexts| && Ended(s, c)
    && forall i :: 0 <= i < |s.contexts| && i != c ==> s.contexts[i] == t.contexts[i]
  }

  lemma StepSameBut(s: State, t: State, c: nat, op: Operation)
    requires SameBut(s, t, c)
    ensures SameBut(Step(s, op), Step(t, op), c)
  {
    hide Tables.Store;
    if op.Add? && op.context < |s.contexts| {
      assert op.context != c ==> s.contexts[op.context] == t.contexts[op.context];
    }
  }

  lemma {:induction false} RunSameBut(s: State, t: State, c: nat, ops: seq<Operation>)
    requires SameBut(s, t, c)
    ensures SameBut(RunFrom(s, ops), RunFrom(t, ops), c)
  {
    if ops != [] {
      hide SameBut;
      RunSameBut(s, t, c, ops[..|ops| - 1]);
      StepSameBut(RunFrom(s, ops[..|ops| - 1]), RunFrom(t, ops[..|ops| - 1]), c, ops[|ops| - 1]);
    }
  }

  /** A write through a stale repository is visible nowhere but in its own ended context, whatever
      happens afterwards. */
  lemma StaleWriteInvisible(ops: seq<Operation>, c: nat, e: Entity, rest: seq<Operation>)
    requires Ended(Run(ops), c)
    ensures SameBut(Run(ops + [Add(c, e)] + rest), Run(ops + rest), c)
  {
    RunSplits(ops + [Add(c, e)], rest);
    RunSplits(ops, rest);
    assert (ops + [Add(c, e)])[..|ops|] == ops;
    RunSameBut(Run(ops + [Add(c, e)]), Run(ops), c, rest);
  }

  // ----- Rollback -----

  ghost predicate SameData(s: State, t: State) {
    s.committed == t.committed && s.contexts == t.contexts && s.active == t.active
  }

  lemma {:induction false} RunSameData(s: State, t: State, ops: seq<Operation>)
    requires SameData(s, t)
    ensures SameData(RunFrom(s, ops), RunFrom(t, ops))
  {
    hide Tables.Store;
    if ops != [] {
      RunSameData(s, t, ops[..|ops| - 1]);
    }
  }

  lemma RollbackKeepsData(ops: seq<Operation>)
    ensures SameData(Run(ops + [Rollback]), Run(ops))
  {
    assert (ops + [Rollback])[..|ops|] == ops;
  }

  /** A rollback has no effect on any data, then or later: it only clears the flag. */
  lemma RollbackIsInvisible(ops: seq<Operation>, rest: seq<Operation>)
    ensures SameData(Run(ops + [Rollback] + rest), Run(ops + rest))
  {
    hide Run;
    hide RunFrom;
    hide SameData;
    RunSplits(ops + [Rollback], rest);
    RunSplits(ops, rest);
    RollbackKeepsData(ops);
    RunSameData(Run(ops + [Rollback]), Run(ops), rest);
  }

  /** So a rollback inside a context does not discard its writes: a later commit publishes them. */
  lemma RollbackThenCommitPublishes(e: Entity)
    ensures Run([Enter, Add(0, e), Rollback, Commit]).committed == NO_ROWS.Store(e)
    ensures Get(NO_ROWS.Store(e).Of(KindOf(e)), KeyOf(e)).Some?
  {
    var ops := [Enter, Add(0, e)];
    RollbackIsInvisible(ops, [Commit]);
    assert ops + [Rollback] + [Commit] == [Enter, Add(0, e), Rollback, Commit];
    assert (ops + [Commit])[..2] == ops && ops[..1] == [Enter] && [Enter][..0] == [];
    assert Run([Enter]) == INITIAL.(contexts := [NO_ROWS], active := true);
    assert Run(ops).contexts == [NO_ROWS.Store(e)];
    GetPut([], KeyOf(e), e, KeyOf(e));
  }

  /** A commit after a rollback publishes the tables of the context. */
  lemma RollbackThenCommit(ops: seq<Operation>)
    requires Run(ops).active
    ensures var s := Run(ops);
      s.contexts != [] && Run(ops + [Rollback, Commit]).committed == s.contexts[|s.contexts| - 1]
  {
    ActiveHasContext(ops);
    RunSplits(ops, [Rollback, Commit]);
    assert [Rollback, Commit][..1] == [Rollback] && [Rollback][..0] == [];
    assert RunFrom(Run(ops), [Rollback]) == Step(Run(ops), Rollback);
  }

  // ----- What rolling back would have to discard -----

  /** How many operations ended with the last one that made the tables of the active context and the
      committed ones equal: the entry of the context, or a commit inside it. */
  function LastSync(ops: seq<Operation>): (n: nat)
    ensures n <= |ops|
  {
    if ops == [] then 0
    else
      var before, last := ops[..|ops| - 1], ops[|ops| - 1];
      if last.Enter? || Commits(Run(before), last) then |ops| else LastSync(before)
  }

  lemma StepSync(s: State, op: Operation)
    requires Step(s, op).active && (s.active ==> s.contexts != [])
    ensures var s' := Step(s, op);
      if op.Enter? || Commits(s, op) then s'.contexts != [] && s'.contexts[|s'.contexts| - 1] == s'.committed
      else s.active && s'.committed == s.committed && |s'.contexts| == |s.contexts|
  {
    hide Tables.Store;
  }

  /** The last synchronisation lies inside the active context, with what is committed still. */
  lemma {:induction false} SyncHolds(ops: seq<Operation>)
    requires Run(ops).active
    ensures var s, base := Run(ops), Run(ops[..LastSync(ops)]);
      && s.contexts != [] && |base.contexts| == |s.contexts|
      && base.committed == s.committed && base.contexts[|base.contexts| - 1] == s.committed
  {
    if ops != [] {
      hide Step;
      var before, last := ops[..|ops| - 1], ops[|ops| - 1];
      ActiveHasContext(before);
      StepSync(Run(before), last);
      assert Run(ops) == Step(Run(before), last);
      if last.Enter? || Commits(Run(before), last) {
        assert LastSync(ops) == |ops| && ops[..|ops|] == ops;
      } else {
        hide Commits;
        SyncHolds(before);
        var n := LastSync(before);
        assert LastSync(ops) == n;
        assert before[..n] == ops[..n];
        hide Run;
        hide LastSync;
      }
    }
  }

  ghost predicate DistinctTables(t: Tables) {
    forall k :: Distinct(t.Of(k))
  }

  lemma StoreDistinct(t: Tables, e: Entity)
    requires DistinctTables(t)
    ensures DistinctTables(t.Store(e))
  {
    hide Put;
    hide Distinct;
    DistinctPut(t.Of(KindOf(e)), KeyOf(e), e);
    forall k
      ensures Distinct(t.Store(e).Of(k))
    {
      assert Distinct(t.Of(k));
    }
  }

  ghost predicate AllDistinct(s: State) {
    DistinctTables(s.committed) && forall i :: 0 <= i < |s.contexts| ==> DistinctTables(s.contexts[i])
  }

  /** No reachable table holds a key twice. */
  lemma {:induction false} TablesDistinct(ops: seq<Operation>)
    ensures AllDistinct(Run(ops))
  {
    if ops != [] {
      hide DistinctTables;
      hide Tables.Store;
      var s, op := Run(ops[..|ops| - 1]), ops[|ops| - 1];
      TablesDistinct(ops[..|ops| - 1]);
      if op.Add? && op.context < |s.contexts| {
        StoreDistinct(s.contexts[op.context], op.entity);
      }
    } else {
      assert DistinctTables(NO_ROWS);
    }
  }

  /** Storing into a context only adds keys, at the end. */
  lemma {:induction false} WrittenGrows(start: Tables, ops: seq<Operation>, c: nat, k: Kind)
    requires DistinctTables(start)
    ensures DistinctTables(Written(start, ops, c))
    ensures Keys(start.Of(k)) <= Keys(Written(start, ops, c).Of(k))
  {
    if ops != [] {
      hide DistinctTables;
      hide Keys;
      hide Put;
      var before, last := Written(start, ops[..|ops| - 1], c), ops[|ops| - 1];
      WrittenGrows(start, ops[..|ops| - 1], c, k);
      if last.Add? && last.context == c {
        StoreDistinct(before, last.entity);
        StoreGrows(before, last.entity, k);
        hide Tables.Store;
        hide Tables.Of;
      }
    }
  }

  lemma StoreGrows(t: Tables, e: Entity, k: Kind)
    ensures Keys(t.Of(k)) <= Keys(t.Store(e).Of(k))
  {
    hide Put;
    hide Keys;
    KeysPut(t.Of(KindOf(e)), KeyOf(e), e);
  }

  lemma KeyIsNew(r: Rows, n: nat)
    requires Distinct(r) && n < |r|
    ensures r[n].key in Keys(r) && r[n].key !in Keys(r)[..n]
  {
    assert Keys(r)[n] == r[n].key;
    forall j | 0 <= j < n
      ensures Keys(r)[..n][j] != r[n].key
    {
      assert Keys(r)[j] == r[j].key;
    }
  }

  /** A dictionary that only gained keys at the end, and answers every lookup as before, is the same. */
  lemma SameLookupsSameRows(d: Rows, r: Rows)
    requires Distinct(d) && Distinct(r) && Keys(d) <= Keys(r) && forall id :: Get(r, id) == Get(d, id)
    ensures d == r
  {
    hide Get;
    if |d| < |r| {
      KeyIsNew(r, |d|);
      GetIsKey(r, r[|d|].key);
      GetIsKey(d, r[|d|].key);
    }
    forall i | 0 <= i < |d|
      ensures d[i] == r[i]
    {
      assert Keys(d)[i] == Keys(r)[i];
      GetAt(d, i);
      GetAt(r, i);
    }
  }

  /** Every last write of the context stores what is committed under its key already. */
  ghost predicate StoresNothingNew(start: Tables, ops: seq<Operation>, c: nat) {
    forall k, id :: LastWrite(ops, c, k, id).Some? ==> Get(start.Of(k), id) == LastWrite(ops, c, k, id)
  }

  lemma WrittenSameExactly(start: Tables, ops: seq<Operation>, c: nat)
    requires DistinctTables(start)
    ensures Written(start, ops, c) == start <==> StoresNothingNew(start, ops, c)
  {
    hide Written;
    hide LastWrite;
    hide Get;
    var t := Written(start, ops, c);
    forall k, id
      ensures Get(t.Of(k), id)
           == if LastWrite(ops, c, k, id).Some? then LastWrite(ops, c, k, id) else Get(start.Of(k), id)
    {
      WrittenFinds(start, ops, c, k, id);
    }
    if StoresNothingNew(start, ops, c) {
      forall k
        ensures t.Of(k) == start.Of(k)
      {
        WrittenGrows(start, ops, c, k);
        SameLookupsSameRows(start.Of(k), t.Of(k));
      }
      SameTables(start, t);
    }
  }

  lemma SameTables(t: Tables, u: Tables)
    requires forall k :: u.Of(k) == t.Of(k)
    ensures t == u
  {
    assert u.Of(Models) == t.Of(Models) && u.Of(Nodes) == t.Of(Nodes) && u.Of(Runs) == t.Of(Runs);
    assert u.Of(Benchmarks) == t.Of(Benchmarks) && u.Of(Artifacts) == t.Of(Artifacts);
  }

  /** Rolling back discards a context's writes, so that a later commit publishes nothing new, exactly
      when there is nothing to discard: since the context was entered, or last committed, its last write
      under every key stored the record that was committed under it already. */
  lemma RollbackDiscardsExactly(ops: seq<Operation>)
    requires Run(ops).active
    ensures var s := Run(ops);
      s.contexts != [] &&
      (Run(ops + [Rollback, Commit]).committed == s.committed
       <==> StoresNothingNew(s.committed, ops[LastSync(ops)..], |s.contexts| - 1))
  {
    hide Run;
    hide RunFrom;
    hide DistinctTables;
    hide StoresNothingNew;
    var s, n := Run(ops), LastSync(ops);
    RollbackThenCommit(ops);
    SyncHolds(ops);
    RunSplits(ops[..n], ops[n..]);
    assert ops[..n] + ops[n..] == ops;
    ContextFrom(Run(ops[..n]), ops[n..], |s.contexts| - 1);
    TablesDistinct(ops);
    WrittenSameExactly(s.committed, ops[n..], |s.contexts| - 1);
  }

  /** In particular for a context that has not committed yet: its own writes decide. */
  lemma RollbackOfEntered(ops: seq<Operation>, rest: seq<Operation>)
    requires Run(ops + [Enter] + rest).active
    requires forall op :: op in rest ==> op.Add? || op.Rollback?
    ensures var c, committed := |Run(ops).contexts|, Run(ops).committed;
      Run(ops + [Enter] + rest + [Rollback, Commit]).committed == committed <==> StoresNothingNew(committed, rest, c)
  {
    hide StoresNothingNew;
    SyncAtEntry(ops, rest);
    RollbackDiscardsExactly(ops + [Enter] + rest);
    assert (ops + [Enter] + rest)[|ops| + 1..] == rest;
  }

  lemma {:induction false} SyncAtEntry(ops: seq<Operation>, rest: seq<Operation>)
    requires forall op :: op in rest ==> op.Add? || op.Rollback?
    ensures var all := ops + [Enter] + rest;
      && LastSync(all) == |ops| + 1 && Run(all).committed == Run(ops).committed
      && |Run(all).contexts| == |Run(ops).contexts| + 1
  {
    hide Tables.Store;
    var all := ops + [Enter] + rest;
    if rest == [] {
      assert all[..|all| - 1] == ops && all[|ops|] == Enter;
    } else {
      var front, last := rest[..|rest| - 1], rest[|rest| - 1];
      assert last in rest;
      assert all[..|all| - 1] == ops + [Enter] + front && all[|all| - 1] == last;
      SyncAtEntry(ops, front);
      NoSync(Run(ops + [Enter] + front), last);
      hide Step;
      hide Commits;
    }
  }

  lemma NoSync(s: State, op: Operation)
    requires op.Add? || op.Rollback?
    ensures !Commits(s, op) && Step(s, op).committed == s.committed && |Step(s, op).contexts| == |s.contexts|
  {
    hide Tables.Store;
  }
}
