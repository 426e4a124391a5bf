/** Routing over the registered nodes of a cluster, and the checks the evidence manifest makes on a
    routing decision. */
module Cluster {
  import opened Wrappers
  import opened Fields
  import opened Paths
  import opened Dicts
  import opened Ordering

  datatype Node = Node(
    nodeId: string, hostname: string, apiBaseUrl: string, backendBaseUrl: string, backendId: string, chip: string,
    memoryGib: int, models: seq<string>, queueDepth: int, ready: bool, healthy: bool, capabilities: seq<string>,
    ports: Dict<string, int>)

  datatype Decision = Decision(
    nodeId: string, backendId: string, modelId: string, apiBaseUrl: Option<string>, reason: string, fallback: bool)

  // ----- Registration -----

  predicate AllNonBlank(values: seq<string>) {
    values != [] && forall i :: 0 <= i < |values| ==> !IsBlank(values[i])
  }

  predicate GoodPorts(ports: Dict<string, int>) {
    ports != [] && forall i :: 0 <= i < |ports| ==> !IsBlank(ports[i].key) && 20000 <= ports[i].value <= 50000
  }

  /** A node registers when every one of its fields is valid; which URLs are, is a parameter. */
  predicate Registers(n: Node, validUrl: string -> bool) {
    && !IsBlank(n.nodeId) && !IsBlank(n.hostname) && validUrl(n.apiBaseUrl) && validUrl(n.backendBaseUrl)
    && !IsBlank(n.backendId) && !IsBlank(n.chip) && n.memoryGib > 0 && AllNonBlank(n.models) && n.queueDepth >= 0
    && AllNonBlank(n.capabilities) && GoodPorts(n.ports)
  }

  // ----- The order of candidates -----

  /** The key `(queue_depth, node_id)`, compared as a tuple. */
  predicate Precedes(x: Node, y: Node) {
    x.queueDepth < y.queueDepth || (x.queueDepth == y.queueDepth && Before(x.nodeId, y.nodeId))
  }

  lemma PrecedesTransitive(x: Node, y: Node, z: Node)
    requires Precedes(x, y) && Precedes(y, z)
    ensures Precedes(x, z)
  {
    if x.queueDepth == y.queueDepth == z.queueDepth {
      BeforeTransitive(x.nodeId, y.nodeId, z.nodeId);
    }
  }

  lemma PrecedesTotal(x: Node, y: Node)
    ensures Precedes(x, y) || Precedes(y, x) || (x.queueDepth == y.queueDepth && x.nodeId == y.nodeId)
    ensures !(Precedes(x, y) && Precedes(y, x)) && !Precedes(x, x)
  {
    BeforeTotal(x.nodeId, y.nodeId);
    BeforeTotal(x.nodeId, x.nodeId);
  }

  // ----- Routing -----

  predicate Eligible(n: Node, model: string) {
    n.healthy && n.ready && model in n.models
  }

  function Candidates(nodes: seq<Node>, model: string): seq<Node> {
    if nodes == [] then []
    else (if Eligible(nodes[0], model) then [nodes[0]] else []) + Candidates(nodes[1..], model)
  }

  /** `min` returns the first of the elements that nothing precedes. */
  function Least(candidates: seq<Node>): (n: Node)
    requires candidates != []
    ensures n in candidates
  {
    var last := candidates[|candidates| - 1];
    if |candidates| == 1 then last
    else
      var n := Least(candidates[..|candidates| - 1]);
      if Precedes(last, n) then last else n
  }

  function Fallback(model: string): Decision {
    Decision("local-fallback", "fake", model, None, "no_healthy_registered_node", true)
  }

  function Chosen(n: Node, model: string): Decision {
    Decision(n.nodeId, n.backendId, model, Some(n.apiBaseUrl), "least_queue_depth", false)
  }

  function Route(nodes: seq<Node>, model: string, validUrl: string -> bool): Result<Decision, ValueError> {
    if IsBlank(model) then Raised(ValueError("model_id"))
    else if exists i :: 0 <= i < |nodes| && !Registers(nodes[i], validUrl) then Raised(ValueError("node"))
    else
      var candidates := Candidates(nodes, model);
      Ok(if candidates == [] then Fallback(model) else Chosen(Least(candidates), model))
  }

  // ----- What the decision is -----

  /** An eligible node of the list that no other eligible one precedes. */
  ghost predicate IsLeast(nodes: seq<Node>, model: string, n: Node) {
    && n in nodes && Eligible(n, model)
    && forall m :: m in nodes && Eligible(m, model) ==> !Precedes(m, n)
  }

  /** The place of the first such node: it precedes every eligible node before it. */
  ghost predicate IsFirstLeast(nodes: seq<Node>, model: string, i: nat) {
    && i < |nodes| && IsLeast(nodes, model, nodes[i])
    && forall j :: 0 <= j < i && Eligible(nodes[j], model) ==> Precedes(nodes[i], nodes[j])
  }

  lemma {:induction false} CandidatesAreEligible(nodes: seq<Node>, model: string, n: Node)
    ensures n in Candidates(nodes, model) <==> n in nodes && Eligible(n, model)
  {
    if nodes != [] {
      CandidatesAreEligible(nodes[1..], model, n);
      assert n in nodes <==> n == nodes[0] || n in nodes[1..];
    }
  }

  lemma {:induction false} CandidatesConcat(a: seq<Node>, b: seq<Node>, model: string)
    ensures Candidates(a + b, model) == Candidates(a, model) + Candidates(b, model)
  {
    hide Eligible;
    if a == [] {
      assert a + b == b;
    } else {
      assert (a + b)[1..] == a[1..] + b && (a + b)[0] == a[0];
      CandidatesConcat(a[1..], b, model);
      var head := if Eligible(a[0], model) then [a[0]] else [];
      var ca, cb := Candidates(a[1..], model), Candidates(b, model);
      assert Candidates(a, model) == head + ca && Candidates(a + b, model) == head + (ca + cb);
      assert head + (ca + cb) == head + ca + cb;
    }
  }

  lemma CandidatesSnoc(front: seq<Node>, last: Node, model: string)
    ensures Candidates(front + [last], model) == Candidates(front, model) + if Eligible(last, model) then [last] else []
  {
    CandidatesConcat(front, [last], model);
    assert [last][1..] == [];
  }

  lemma LeastSnoc(front: seq<Node>, last: Node)
    requires front != []
    ensures Least(front + [last]) == if Precedes(last, Least(front)) then last else Least(front)
  {
    assert (front + [last])[..|front|] == front;
  }

  lemma StillLeast(front: seq<Node>, last: Node, model: string, i: nat)
    requires IsFirstLeast(front, model, i) && (Eligible(last, model) ==> !Precedes(last, front[i]))
    ensures IsFirstLeast(front + [last], model, i)
  {
    hide Eligible;
    hide Precedes;
    var nodes := front + [last];
    assert nodes[i] == front[i] && nodes[i] in nodes;
    forall j | 0 <= j < i && Eligible(nodes[j], model)
      ensures Precedes(nodes[i], nodes[j])
    {
      assert nodes[j] == front[j];
    }
    forall m | m in nodes && Eligible(m, model)
      ensures !Precedes(m, nodes[i])
    {
      assert m in front || m == last;
    }
  }

  lemma NowLeast(front: seq<Node>, last: Node, model: string)
    requires Eligible(last, model)
    requires forall m :: m in front && Eligible(m, model) ==> Precedes(last, m)
    ensures IsFirstLeast(front + [last], model, |front|)
  {
    hide Eligible;
    var nodes := front + [last];
    assert nodes[|front|] == last && last in nodes;
    forall m | m in nodes && Eligible(m, model)
      ensures !Precedes(m, last)
    {
      assert m in front || m == last;
      PrecedesTotal(m, last);
    }
    forall j | 0 <= j < |front| && Eligible(nodes[j], model)
      ensures Precedes(last, nodes[j])
    {
      assert nodes[j] == front[j] && front[j] in front;
    }
  }

  /** What `min` selects is the first least eligible node of the list. */
  lemma {:induction false} LeastIsFirst(nodes: seq<Node>, model: string) returns (i: nat)
    requires Candidates(nodes, model) != []
    ensures IsFirstLeast(nodes, model, i) && nodes[i] == Least(Candidates(nodes, model))
  {
    hide Eligible;
    hide Precedes;
    hide Least;
    hide Candidates;
    if nodes == [] {
      NoCandidates(model);
      assert false;
    }
    var front, last := nodes[..|nodes| - 1], nodes[|nodes| - 1];
    assert nodes == front + [last];
    var before := Candidates(front, model);
    CandidatesSnoc(front, last, model);
    forall m
      ensures m in front && Eligible(m, model) ==> m in before
    {
      CandidatesAreEligible(front, model, m);
    }
    if !Eligible(last, model) {
      assert before + [] == before;
      i := LeastIsFirst(front, model);
      StillLeast(front, last, model, i);
    } else if before == [] {
      i := |front|;
      NowLeast(front, last, model);
      OnlyCandidate(last);
    } else {
      i := LeastIsFirst(front, model);
      LeastSnoc(before, last);
      if Precedes(last, front[i]) {
        forall m | m in front && Eligible(m, model)
          ensures Precedes(last, m)
        {
          PrecedesAbove(last, front[i], m);
        }
        i := |front|;
        NowLeast(front, last, model);
      } else {
        StillLeast(front, last, model, i);
      }
    }
  }

  lemma NoCandidates(model: string)
    ensures Candidates([], model) == []
  {}

  lemma OnlyCandidate(n: Node)
    ensures Least([n]) == n
  {}

  lemma PrecedesAbove(x: Node, n: Node, m: Node)
    requires Precedes(x, n) && !Precedes(m, n)
    ensures Precedes(x, m)
  {
    PrecedesTotal(m, n);
    if Precedes(n, m) {
      PrecedesTransitive(x, n, m);
    }
  }

  lemma FirstLeastUnique(nodes: seq<Node>, model: string, i: nat, j: nat)
    requires IsFirstLeast(nodes, model, i) && IsFirstLeast(nodes, model, j)
    ensures i == j
  {
    hide Precedes;
    hide Eligible;
  }

  ghost predicate AllRegister(nodes: seq<Node>, validUrl: string -> bool) {
    forall i :: 0 <= i < |nodes| ==> Registers(nodes[i], validUrl)
  }

  /** The decision sends the model's requests to the node at the given place. */
  ghost predicate Names(d: Decision, nodes: seq<Node>, i: nat, model: string) {
    && i < |nodes| && d.nodeId == nodes[i].nodeId && d.backendId == nodes[i].backendId
    && d.apiBaseUrl == Some(nodes[i].apiBaseUrl)
    && d.modelId == model && d.reason == "least_queue_depth" && !d.fallback
  }

  lemma ChosenNames(nodes: seq<Node>, i: nat, model: string)
    requires i < |nodes|
    ensures Names(Chosen(nodes[i], model), nodes, i, model)
  {}

  /** The decision names the first eligible node that no eligible node precedes, whether or not ids are
      repeated, and is the fallback exactly when no node is eligible. */
  lemma RouteIsFirstLeast(nodes: seq<Node>, model: string, validUrl: string -> bool)
    requires !IsBlank(model) && AllRegister(nodes, validUrl)
    ensures var r := Route(nodes, model, validUrl);
      && r.Ok?
      && (r.value.fallback <==> forall n :: n in nodes ==> !Eligible(n, model))
      && (r.value.fallback ==> r.value == Fallback(model))
      && (!r.value.fallback <==> exists i :: IsFirstLeast(nodes, model, i))
      && (forall i :: IsFirstLeast(nodes, model, i) ==> Names(r.value, nodes, i, model))
  {
    hide Registers;
    hide Eligible;
    hide IsBlank;
    hide Candidates;
    hide IsFirstLeast;
    hide Names;
    hide Least;
    var candidates := Candidates(nodes, model);
    forall n
      ensures n in candidates <==> n in nodes && Eligible(n, model)
    {
      CandidatesAreEligible(nodes, model, n);
    }
    if candidates != [] {
      assert candidates[0] in candidates;
      var k := LeastIsFirst(nodes, model);
      FirstLeastEligible(nodes, model, k);
      ChosenNames(nodes, k, model);
      forall i | IsFirstLeast(nodes, model, i)
        ensures i == k
      {
        FirstLeastUnique(nodes, model, i, k);
      }
    } else {
      forall i
        ensures !IsFirstLeast(nodes, model, i)
      {
        if IsFirstLeast(nodes, model, i) {
          FirstLeastEligible(nodes, model, i);
        }
      }
    }
  }

  lemma FirstLeastEligible(nodes: seq<Node>, model: string, i: nat)
    requires IsFirstLeast(nodes, model, i)
    ensures i < |nodes| && nodes[i] in nodes && Eligible(nodes[i], model)
  {}

  /** The decision in the nodes' own terms: it sends the model to a healthy and ready node that lists it,
      such that no other one has a shorter queue, or an equal one and a smaller id; and it falls back exactly
      when no node is healthy, ready and lists the model. */
  lemma RouteByLoad(nodes: seq<Node>, model: string, validUrl: string -> bool)
    requires !IsBlank(model) && AllRegister(nodes, validUrl)
    ensures var r := Route(nodes, model, validUrl);
      && r.Ok?
      && (r.value.fallback <==> forall n :: n in nodes ==> !(n.healthy && n.ready && model in n.models))
      && (r.value.fallback ==>
          r.value == Decision("local-fallback", "fake", model, None, "no_healthy_registered_node", true))
      && (!r.value.fallback ==> exists n :: (
            && LeastLoaded(nodes, model, n)
            && r.value == Decision(n.nodeId, n.backendId, model, Some(n.apiBaseUrl), "least_queue_depth", false)))
  {
    hide Registers;
    hide IsBlank;
    hide Before;
    RouteIsFirstLeast(nodes, model, validUrl);
    hide Route;
    if i: nat :| IsFirstLeast(nodes, model, i) {
      assert LeastLoaded(nodes, model, nodes[i]);
    }
  }

  /** A healthy and ready node that lists the model, such that no other one has a shorter queue, or an equal
      one and a smaller id. */
  ghost predicate LeastLoaded(nodes: seq<Node>, model: string, n: Node) {
    && n in nodes && n.healthy && n.ready && model in n.models
    && forall m :: m in nodes && m.healthy && m.ready && model in m.models ==>
      n.queueDepth < m.queueDepth || (n.queueDepth == m.queueDepth && !Before(m.nodeId, n.nodeId))
  }

  /** A node whose fields make its registration raise. */
  ghost predicate IsFaulty(n: Node, validUrl: string -> bool) {
    || OnlySpace(n.nodeId) || OnlySpace(n.hostname) || OnlySpace(n.backendId) || OnlySpace(n.chip)
    || !validUrl(n.apiBaseUrl) || !validUrl(n.backendBaseUrl) || n.memoryGib <= 0 || n.queueDepth < 0
    || n.models == [] || (exists m :: m in n.models && OnlySpace(m))
    || n.capabilities == [] || (exists c :: c in n.capabilities && OnlySpace(c))
    || n.ports == [] || (exists p :: p in n.ports && (OnlySpace(p.key) || p.value < 20000 || p.value > 50000))
  }

  lemma RegistersExactly(n: Node, validUrl: string -> bool)
    ensures Registers(n, validUrl) <==> !IsFaulty(n, validUrl)
  {
    hide IsBlank;
    hide OnlySpace;
    forall s
      ensures IsBlank(s) <==> OnlySpace(s)
    {
      BlankExactly(s);
    }
    assert (exists m :: m in n.models && OnlySpace(m)) <==>
      exists i :: 0 <= i < |n.models| && IsBlank(n.models[i]);
    assert (exists c :: c in n.capabilities && OnlySpace(c)) <==>
      exists i :: 0 <= i < |n.capabilities| && IsBlank(n.capabilities[i]);
  }

  /** Routing raises exactly for a model id of white space alone, or when some node is faulty, eligible or
      not. */
  lemma RouteRaisesExactly(nodes: seq<Node>, model: string, validUrl: string -> bool)
    ensures Route(nodes, model, validUrl).Raised? <==>
      OnlySpace(model) || exists n :: n in nodes && IsFaulty(n, validUrl)
  {
    hide IsBlank;
    hide OnlySpace;
    hide Registers;
    hide IsFaulty;
    BlankExactly(model);
    forall n
      ensures Registers(n, validUrl) <==> !IsFaulty(n, validUrl)
    {
      RegistersExactly(n, validUrl);
    }
  }

  // ----- Distinct ids -----

  /** An eligible node of the list that precedes every other eligible one. */
  ghost predicate IsBest(nodes: seq<Node>, model: string, n: Node) {
    && n in nodes && Eligible(n, model)
    && forall m :: m in nodes && Eligible(m, model) && m != n ==> Precedes(n, m)
  }

  ghost predicate DistinctIds(nodes: seq<Node>) {
    forall i, j :: 0 <= i < j < |nodes| ==> nodes[i].nodeId != nodes[j].nodeId
  }

  lemma SameIdSameNode(nodes: seq<Node>, x: Node, y: Node)
    requires DistinctIds(nodes) && x in nodes && y in nodes && x.nodeId == y.nodeId
    ensures x == y
  {
    var i :| 0 <= i < |nodes| && nodes[i] == x;
    var j :| 0 <= j < |nodes| && nodes[j] == y;
  }

  /** With distinct ids the least eligible node is unique: it strictly precedes every other one. */
  lemma LeastIsBest(nodes: seq<Node>, model: string, n: Node)
    requires DistinctIds(nodes)
    ensures IsLeast(nodes, model, n) <==> IsBest(nodes, model, n)
  {
    hide Eligible;
    if n in nodes {
      forall m | m in nodes
        ensures m == n || (Precedes(n, m) <==> !Precedes(m, n))
      {
        PrecedesTotal(m, n);
        if m.nodeId == n.nodeId {
          SameIdSameNode(nodes, m, n);
        }
      }
      PrecedesTotal(n, n);
    }
  }

  // ----- Changing the list -----

  /** All least eligible nodes would be reached in the same way. */
  ghost predicate LeastAgree(nodes: seq<Node>, model: string) {
    forall x, y :: IsLeast(nodes, model, x) && IsLeast(nodes, model, y) ==>
      x.backendId == y.backendId && x.apiBaseUrl == y.apiBaseUrl
  }

  lemma DistinctAgree(nodes: seq<Node>, model: string)
    requires DistinctIds(nodes)
    ensures LeastAgree(nodes, model)
  {
    forall x, y | IsLeast(nodes, model, x) && IsLeast(nodes, model, y)
      ensures x == y
    {
      LeastSameKey(nodes, model, x, y);
      SameIdSameNode(nodes, x, y);
    }
  }

  lemma LeastSameKey(nodes: seq<Node>, model: string, x: Node, y: Node)
    requires IsLeast(nodes, model, x) && IsLeast(nodes, model, y)
    ensures x.queueDepth == y.queueDepth && x.nodeId == y.nodeId
  {
    hide Eligible;
    PrecedesTotal(x, y);
  }

  /** The same eligible nodes, whatever the order, the repetitions, and what else is registered. */
  ghost predicate SameEligible(a: seq<Node>, b: seq<Node>, model: string) {
    forall n :: n in a && Eligible(n, model) <==> n in b && Eligible(n, model)
  }

  lemma SameLeast(a: seq<Node>, b: seq<Node>, model: string, n: Node)
    requires SameEligible(a, b, model)
    ensures IsLeast(a, model, n) <==> IsLeast(b, model, n)
  {
    hide Eligible;
    hide Precedes;
  }

  /** While the least eligible nodes agree, the decision depends on the eligible nodes alone: it is the
      same for any order, and when ineligible nodes are added or removed. With distinct ids they do. */
  lemma RouteDependsOnEligible(a: seq<Node>, b: seq<Node>, model: string, validUrl: string -> bool)
    requires !IsBlank(model) && AllRegister(a, validUrl) && AllRegister(b, validUrl)
    requires SameEligible(a, b, model) && (DistinctIds(a) || LeastAgree(a, model))
    ensures Route(a, model, validUrl) == Route(b, model, validUrl)
  {
    hide Route;
    hide Eligible;
    hide IsLeast;
    RouteIsFirstLeast(a, model, validUrl);
    RouteIsFirstLeast(b, model, validUrl);
    if DistinctIds(a) {
      DistinctAgree(a, model);
    }
    hide IsFirstLeast;
    hide Names;
    hide LeastAgree;
    if i, j :| IsFirstLeast(a, model, i) && IsFirstLeast(b, model, j) {
      SameNames(a, b, model, i, j, Route(a, model, validUrl).value, Route(b, model, validUrl).value);
    }
  }

  lemma SameNames(a: seq<Node>, b: seq<Node>, model: string, i: nat, j: nat, x: Decision, y: Decision)
    requires SameEligible(a, b, model) && LeastAgree(a, model)
    requires IsFirstLeast(a, model, i) && IsFirstLeast(b, model, j)
    requires Names(x, a, i, model) && Names(y, b, j, model)
    ensures x == y
  {
    SameLeast(a, b, model, b[j]);
    LeastSameKey(a, model, a[i], b[j]);
    hide SameEligible;
    hide IsLeast;
  }

  lemma SameMembers(a: seq<Node>, b: seq<Node>, model: string, validUrl: string -> bool)
    requires multiset(a) == multiset(b) && AllRegister(a, validUrl)
    ensures AllRegister(b, validUrl) && SameEligible(a, b, model)
  {
    hide Registers;
    hide Eligible;
    forall n
      ensures n in a <==> n in b
    {
      assert n in a <==> n in multiset(a);
      assert n in b <==> n in multiset(b);
    }
    forall i | 0 <= i < |b|
      ensures Registers(b[i], validUrl)
    {
      assert b[i] in a;
      var j :| 0 <= j < |a| && a[j] == b[i];
    }
  }

  lemma MovedToFront(a: seq<Node>, x: Node) returns (b: seq<Node>)
    requires x in a
    ensures multiset(b) == multiset(a) && b != [] && b[0] == x
  {
    var i :| 0 <= i < |a| && a[i] == x;
    b := [x] + (a[..i] + a[i + 1..]);
    assert a == a[..i] + [x] + a[i + 1..];
    assert multiset(a) == multiset(a[..i]) + multiset{x} + multiset(a[i + 1..]);
  }

  lemma FrontIsChosen(a: seq<Node>, x: Node, model: string, validUrl: string -> bool) returns (b: seq<Node>)
    requires !IsBlank(model) && AllRegister(a, validUrl) && IsLeast(a, model, x)
    ensures multiset(b) == multiset(a)
    ensures Route(b, model, validUrl) == Ok(Chosen(x, model))
  {
    hide Route;
    hide Eligible;
    b := MovedToFront(a, x);
    SameMembers(a, b, model, validUrl);
    SameLeast(a, b, model, x);
    hide IsLeast;
    assert IsFirstLeast(b, model, 0);
    RouteIsFirstLeast(b, model, validUrl);
  }

  /** Routing does not depend on the order of the nodes exactly when the least eligible nodes agree in
      their backend id and their URL; repeated ids alone do no harm. */
  lemma RoutePermuted(a: seq<Node>, model: string, validUrl: string -> bool)
    requires !IsBlank(model) && AllRegister(a, validUrl)
    ensures (forall b :: multiset(b) == multiset(a) ==> Route(b, model, validUrl) == Route(a, model, validUrl))
      <==> LeastAgree(a, model)
  {
    hide Route;
    hide IsLeast;
    hide AllRegister;
    hide SameEligible;
    if LeastAgree(a, model) {
      forall b | multiset(b) == multiset(a)
        ensures Route(b, model, validUrl) == Route(a, model, validUrl)
      {
        SameMembers(a, b, model, validUrl);
        RouteDependsOnEligible(a, b, model, validUrl);
      }
    }
    if (forall b :: multiset(b) == multiset(a) ==> Route(b, model, validUrl) == Route(a, model, validUrl)) {
      forall x, y | IsLeast(a, model, x) && IsLeast(a, model, y)
        ensures x.backendId == y.backendId && x.apiBaseUrl == y.apiBaseUrl
      {
        var first := FrontIsChosen(a, x, model, validUrl);
        var second := FrontIsChosen(a, y, model, validUrl);
        assert Route(first, model, validUrl) == Route(second, model, validUrl);
      }
    }
  }

  function ExampleNode(url: string): Node {
    Node("n", "h", url, url, "b", "c", 1, ["m"], 0, true, true, ["t"], [Entry("p", 20000)])
  }

  lemma ExampleRegisters(url: string, validUrl: string -> bool)
    requires validUrl(url)
    ensures Registers(ExampleNode(url), validUrl) && Eligible(ExampleNode(url), "m")
  {
    hide IsBlank;
    NotBlank("n");
    NotBlank("h");
    NotBlank("b");
    NotBlank("c");
    NotBlank("m");
    NotBlank("t");
    NotBlank("p");
  }

  /** Two nodes with the same id and the same queue: the one listed first is chosen. */
  lemma OrderMatters(validUrl: string -> bool, u: string, v: string)
    requires u != v && validUrl(u) && validUrl(v)
    ensures var x, y := ExampleNode(u), ExampleNode(v);
      Route([x, y], "m", validUrl) != Route([y, x], "m", validUrl)
  {
    hide Route;
    hide Registers;
    hide IsBlank;
    NotBlank("m");
    ExampleRegisters(u, validUrl);
    ExampleRegisters(v, validUrl);
    FirstOfTwo(ExampleNode(u), ExampleNode(v));
    FirstOfTwo(ExampleNode(v), ExampleNode(u));
    RouteIsFirstLeast([ExampleNode(u), ExampleNode(v)], "m", validUrl);
    RouteIsFirstLeast([ExampleNode(v), ExampleNode(u)], "m", validUrl);
  }

  lemma FirstOfTwo(x: Node, y: Node)
    requires Eligible(x, "m") && x.nodeId == y.nodeId && x.queueDepth == y.queueDepth
    ensures IsFirstLeast([x, y], "m", 0)
  {
    hide Eligible;
    PrecedesTotal(x, y);
    PrecedesTotal(x, x);
    BeforeTotal(x.nodeId, x.nodeId);
  }

  // ----- Joining two lists -----

  lemma PrecedesNot(x: Node, y: Node, z: Node)
    requires !Precedes(x, y) && !Precedes(y, z)
    ensures !Precedes(x, z)
  {
    if Precedes(x, z) {
      PrecedesAbove(x, z, y);
    }
  }

  lemma {:induction false} LeastConcat(a: seq<Node>, b: seq<Node>)
    requires a != [] && b != []
    ensures Least(a + b) == if Precedes(Least(b), Least(a)) then Least(b) else Least(a)
  {
    hide Precedes;
    var front, last := b[..|b| - 1], b[|b| - 1];
    assert a + b == a + front + [last];
    LeastSnoc(a + front, last);
    if front == [] {
      assert a + front == a && b == [last];
    } else {
      LeastConcat(a, front);
      assert b == front + [last];
      LeastSnoc(front, last);
      hide Least;
      var la, lf := Least(a), Least(front);
      if Precedes(last, lf) && Precedes(lf, la) {
        PrecedesTransitive(last, lf, la);
      }
      if !Precedes(last, lf) && !Precedes(lf, la) {
        PrecedesNot(last, lf, la);
      }
    }
  }

  /** The better of two decisions for the same model: one that is no fallback over one that is; of two
      others the left one, unless the right one's node precedes the left one's. */
  ghost predicate BestOfTwo(a: seq<Node>, b: seq<Node>, model: string, joined: Decision, left: Decision,
                            right: Decision)
  {
    if left.fallback then joined == right
    else if right.fallback then joined == left
    else exists i, j :: Compared(a, b, model, i, j, joined, left, right)
  }

  ghost predicate Compared(a: seq<Node>, b: seq<Node>, model: string, i: nat, j: nat, joined: Decision, left: Decision,
                           right: Decision)
  {
    && IsFirstLeast(a, model, i) && IsFirstLeast(b, model, j)
    && left == Chosen(a[i], model) && right == Chosen(b[j], model)
    && joined == if Precedes(b[j], a[i]) then right else left
  }

  lemma AllRegisterConcat(a: seq<Node>, b: seq<Node>, validUrl: string -> bool)
    requires AllRegister(a, validUrl) && AllRegister(b, validUrl)
    ensures AllRegister(a + b, validUrl)
  {
    hide Registers;
  }

  /** Routing over two lists together is the better of routing over each. */
  lemma RouteComposes(a: seq<Node>, b: seq<Node>, model: string, validUrl: string -> bool)
    requires !IsBlank(model) && AllRegister(a, validUrl) && AllRegister(b, validUrl)
    ensures Route(a + b, model, validUrl).Ok? && Route(a, model, validUrl).Ok? && Route(b, model, validUrl).Ok?
    ensures BestOfTwo(a, b, model, Route(a + b, model, validUrl).value,
                      Route(a, model, validUrl).value, Route(b, model, validUrl).value)
  {
    hide Registers;
    hide IsBlank;
    hide Candidates;
    hide Precedes;
    hide IsFirstLeast;
    hide Least;
    AllRegisterConcat(a, b, validUrl);
    CandidatesConcat(a, b, model);
    var ca, cb := Candidates(a, model), Candidates(b, model);
    if ca == [] {
      assert ca + cb == cb;
    } else if cb == [] {
      assert ca + cb == ca;
    } else {
      LeastConcat(ca, cb);
      var i := LeastIsFirst(a, model);
      var j := LeastIsFirst(b, model);
      assert Compared(a, b, model, i, j, Route(a + b, model, validUrl).value,
                      Route(a, model, validUrl).value, Route(b, model, validUrl).value);
    }
  }

  // ----- The manifest's checks on a decision -----

  /** The checks on each field of a decision, and the reference to a registered node. */
  predicate AcceptsDecision(nodes: seq<Node>, d: Decision, validUrl: string -> bool) {
    && !IsBlank(d.nodeId) && !IsBlank(d.backendId) && !IsBlank(d.modelId) && !IsBlank(d.reason)
    && (d.apiBaseUrl.Some? ==> validUrl(d.apiBaseUrl.value))
    && (d.fallback || exists n :: n in nodes && n.nodeId == d.nodeId)
  }

  /** A decision is refused exactly when one of its texts is white space alone, its URL is not valid, or it is
      no fallback and names no registered node. */
  lemma RefusedExactly(nodes: seq<Node>, d: Decision, validUrl: string -> bool)
    ensures !AcceptsDecision(nodes, d, validUrl) <==>
      || OnlySpace(d.nodeId) || OnlySpace(d.backendId) || OnlySpace(d.modelId) || OnlySpace(d.reason)
      || (d.apiBaseUrl.Some? && !validUrl(d.apiBaseUrl.value))
      || (!d.fallback && forall n :: n in nodes ==> n.nodeId != d.nodeId)
  {
    hide IsBlank;
    hide OnlySpace;
    BlankExactly(d.nodeId);
    BlankExactly(d.backendId);
    BlankExactly(d.modelId);
    BlankExactly(d.reason);
  }

  /** Whatever routing decides, the evidence manifest accepts for the same nodes. */
  lemma RoutedIsAccepted(nodes: seq<Node>, model: string, validUrl: string -> bool)
    requires Route(nodes, model, validUrl).Ok?
    ensures AcceptsDecision(nodes, Route(nodes, model, validUrl).value, validUrl)
  {
    hide IsBlank;
    hide Candidates;
    hide Least;
    var candidates := Candidates(nodes, model);
    if candidates == [] {
      NotBlank("local-fallback");
      NotBlank("fake");
      NotBlank("no_healthy_registered_node");
    } else {
      NotBlank("least_queue_depth");
      var n := Least(candidates);
      CandidatesAreEligible(nodes, model, n);
      var i :| 0 <= i < |nodes| && nodes[i] == n;
      assert Registers(nodes[i], validUrl);
    }
  }
}
