/** Document-chain traversal of backend/app/core/docflow.py: a recursive query per direction, with
    a depth cap and a visited guard that searches the comma-joined path text.

    Document ids are the text their CAST renders: fixed-width (32 or 36) and comma-free. */
module Docflow {

  const MAX_CHAIN_DEPTH := 20

  type Id = string
  type Tenant = nat

  datatype Link = Link(tenant: Tenant, predecessor: Id, successor: Id)
  datatype Document = Document(tenant: Tenant, id: Id)
  /** One tenant's links, walked the way a `forward` flag asks. */
  datatype Graph = Graph(links: set<Link>, tenant: Tenant, forward: bool)

  datatype Row = Row(document: Id, depth: nat, path: string)
  datatype DocumentChain = DocumentChain(nodes: set<Id>, edges: set<Link>)

  // ---- The query --------------------------------------------------------------------------

  /** path LIKE '%' || id || '%'; ids hold no LIKE wildcard, so this is substring search. */
  predicate Contains(text: string, id: Id) {
    exists k: nat :: k <= |text| && OccursAt(text, id, k)
  }

  predicate OccursAt(text: string, id: Id, k: nat) {
    k + |id| <= |text| && text[k..k + |id|] == id
  }

  /** The column labels exactly as the code assigns them: `forward` joins on the successor column. */
  function Near(l: Link, forward: bool): Id {
    if forward then l.successor else l.predecessor
  }

  function Far(l: Link, forward: bool): Id {
    if forward then l.predecessor else l.successor
  }

  /** The recursive member, applied to one working table. */
  function NextRows(g: Graph, cap: nat, rows: set<Row>): set<Row> {
    set r <- rows, l <- g.links |
      && Near(l, g.forward) == r.document
      && l.tenant == g.tenant
      && r.depth < cap
      && !Contains(r.path, Far(l, g.forward))
      :: Row(Far(l, g.forward), r.depth + 1, r.path + "," + Far(l, g.forward))
  }

  predicate AllAtDepth(rows: set<Row>, depth: nat) {
    forall r :: r in rows ==> r.depth == depth
  }

  /** WITH RECURSIVE evaluation: extend the working table until it is empty. */
  function Evaluate(g: Graph, cap: nat, rows: set<Row>, ghost depth: nat): (out: set<Row>)
    requires AllAtDepth(rows, depth) && depth <= cap + 1
    requires depth > cap ==> rows == {}
    decreases cap + 1 - depth
  {
    if rows == {} then {}
    else rows + Evaluate(g, cap, NextRows(g, cap, rows), depth + 1)
  }

  function Reach(g: Graph, cap: nat, start: Id): set<Id> {
    set r <- Evaluate(g, cap, {Row(start, 0, start)}, 0) :: r.document
  }

  /** The union of both directions. */
  function Reached(links: set<Link>, tenant: Tenant, start: Id): set<Id> {
    Reach(Graph(links, tenant, false), MAX_CHAIN_DEPTH, start) +
    Reach(Graph(links, tenant, true), MAX_CHAIN_DEPTH, start)
  }

  function GetDocumentChain(documents: set<Document>, links: set<Link>, tenant: Tenant, start: Id): DocumentChain {
    var reachable := Reached(links, tenant, start);
    var present := set d <- documents | d.tenant == tenant && d.id in reachable :: d.id;
    var among := set l <- links | l.tenant == tenant && l.predecessor in present && l.successor in present;
    if present == {} then DocumentChain({}, {}) else DocumentChain(present, among)
  }

  // ---- The visited guard ------------------------------------------------------------------

  /** Fixed-width, comma-free text: what casting an id column renders. */
  predicate IsIdText(id: Id, width: nat) {
    |id| == width && ',' !in id
  }

  /** The path column for a non-empty list of visited ids. */
  function Join(path: seq<Id>): string
    requires path != []
  {
    if |path| == 1 then path[0] else Join(path[..|path| - 1]) + "," + path[|path| - 1]
  }

  lemma CommaInside(t: string, k: nat, n: nat, m: nat)
    ensures k <= m < k + n <= |t| && t[m] == ',' ==> ',' in t[k..k + n]
  {
    if k <= m < k + n <= |t| && t[m] == ',' {
      assert t[k..k + n][m - k] == ',';
    }
  }

  lemma SliceOfJoin(a: string, b: string, k: nat, n: nat)
    ensures k + n <= |a| ==> (a + "," + b)[k..k + n] == a[k..k + n]
    ensures k + n <= |b| ==> (a + "," + b)[k + |a| + 1..k + |a| + 1 + n] == b[k..k + n]
  {
  }

  /** A comma-free word found in a comma-joined text lies on one side of the comma. */
  lemma ContainsAcrossComma(a: string, b: string, id: Id)
    requires ',' !in id
    ensures Contains(a + "," + b, id) <==> Contains(a, id) || Contains(b, id)
  {
    var t := a + "," + b;
    if Contains(t, id) {
      var k: nat :| k <= |t| && OccursAt(t, id, k);
      OnOneSide(a, b, id, k);
    }
    if Contains(a, id) {
      var k: nat :| k <= |a| && OccursAt(a, id, k);
      SliceOfJoin(a, b, k, |id|);
      assert OccursAt(t, id, k);
    }
    if Contains(b, id) {
      var k: nat :| k <= |b| && OccursAt(b, id, k);
      SliceOfJoin(a, b, k, |id|);
      assert OccursAt(t, id, k + |a| + 1);
    }
  }

  lemma OnOneSide(a: string, b: string, id: Id, k: nat)
    requires ',' !in id && OccursAt(a + "," + b, id, k)
    ensures Contains(a, id) || Contains(b, id)
  {
    CommaInside(a + "," + b, k, |id|, |a|);
    if k + |id| <= |a| {
      SliceOfJoin(a, b, k, |id|);
      assert OccursAt(a, id, k);
    } else if k > |a| {
      SliceOfJoin(a, b, k - |a| - 1, |id|);
      assert OccursAt(b, id, k - |a| - 1);
    }
  }

  /** For any comma-free id, the text guard finds it exactly when it occurs inside a visited one. */
  lemma {:induction false} GuardSearchesEntries(path: seq<Id>, id: Id)
    requires path != [] && ',' !in id
    ensures Contains(Join(path), id) <==> exists i :: 0 <= i < |path| && Contains(path[i], id)
  {
    var n := |path| - 1;
    if n > 0 {
      GuardSearchesEntries(path[..n], id);
      ContainsAcrossComma(Join(path[..n]), path[n], id);
      if i :| 0 <= i < n && Contains(path[..n][i], id) {
        assert Contains(path[i], id);
      }
      if i :| 0 <= i < n && Contains(path[i], id) {
        assert Contains(path[..n][i], id);
      }
    }
  }

  /** Hence for ids of one width the guard is exact: it finds an id if and only if the path visited
      it. */
  lemma VisitedGuardExact(path: seq<Id>, id: Id, width: nat)
    requires path != [] && IsIdText(id, width) && forall p :: p in path ==> IsIdText(p, width)
    ensures Contains(Join(path), id) <==> id in path
  {
    GuardSearchesEntries(path, id);
    forall i | 0 <= i < |path| ensures Contains(path[i], id) <==> path[i] == id {
      assert path[i] in path;
      assert path[i][0..0 + |path[i]|] == path[i];
      assert OccursAt(path[i], id, 0) <==> path[i] == id;
    }
  }

  // ---- Walks ------------------------------------------------------------------------------

  predicate Edge(g: Graph, a: Id, b: Id) {
    exists l :: l in g.links && l.tenant == g.tenant && Near(l, g.forward) == a && Far(l, g.forward) == b
  }

  ghost predicate Walk(g: Graph, w: seq<Id>, from: Id, to: Id) {
    && w != [] && w[0] == from && w[|w| - 1] == to
    && forall i :: 0 <= i < |w| - 1 ==> Edge(g, w[i], w[i + 1])
  }

  ghost predicate Simple(w: seq<Id>) {
    forall i, j :: 0 <= i < j < |w| ==> w[i] != w[j]
  }

  ghost predicate WithinHops(g: Graph, hops: nat, from: Id, to: Id) {
    exists w :: Walk(g, w, from, to) && |w| <= hops + 1
  }

  /** Every walk shortens to a simple path between the same ends. */
  lemma {:induction false} Shorten(g: Graph, w: seq<Id>, from: Id, to: Id) returns (p: seq<Id>)
    requires Walk(g, w, from, to)
    ensures Walk(g, p, from, to) && Simple(p) && |p| <= |w|
    decreases |w|
  {
    if Simple(w) {
      p := w;
    } else {
      var i, j :| 0 <= i < j < |w| && w[i] == w[j];
      var cut := w[..i] + w[j..];
      forall k | 0 <= k < |cut| - 1 ensures Edge(g, cut[k], cut[k + 1]) {
        if k < i {
          assert Edge(g, w[k], w[k + 1]);
        } else {
          assert Edge(g, w[k + j - i], w[k + j - i + 1]);
        }
      }
      p := Shorten(g, cut, from, to);
    }
  }

  // ---- Working tables ---------------------------------------------------------------------

  function Table(g: Graph, cap: nat, start: Id, n: nat): (rows: set<Row>)
    ensures AllAtDepth(rows, n)
  {
    if n == 0 then {Row(start, 0, start)} else NextRows(g, cap, Table(g, cap, start, n - 1))
  }

  ghost predicate IdTexts(links: set<Link>, start: Id, width: nat) {
    && IsIdText(start, width)
    && forall l :: l in links ==> IsIdText(l.predecessor, width) && IsIdText(l.successor, width)
  }

  function RowOf(p: seq<Id>): Row
    requires p != []
  {
    Row(p[|p| - 1], |p| - 1, Join(p))
  }

  lemma {:induction false} WalkTexts(g: Graph, start: Id, p: seq<Id>, to: Id, width: nat)
    requires IdTexts(g.links, start, width) && Walk(g, p, start, to)
    ensures forall x :: x in p ==> IsIdText(x, width)
  {
    forall i | 0 <= i < |p| ensures IsIdText(p[i], width) {
      if i > 0 {
        assert Edge(g, p[i - 1], p[i - 1 + 1]);
      }
    }
  }

  lemma Parent(g: Graph, cap: nat, rows: set<Row>, row: Row) returns (r: Row, l: Link)
    requires row in NextRows(g, cap, rows)
    ensures r in rows && l in g.links && Near(l, g.forward) == r.document && l.tenant == g.tenant
    ensures !Contains(r.path, Far(l, g.forward))
    ensures row == Row(Far(l, g.forward), r.depth + 1, r.path + "," + Far(l, g.forward))
  {
    r, l :| r in rows && l in g.links && Near(l, g.forward) == r.document && l.tenant == g.tenant && r.depth < cap
      && !Contains(r.path, Far(l, g.forward))
      && row == Row(Far(l, g.forward), r.depth + 1, r.path + "," + Far(l, g.forward));
  }

  /** Every row of the n-th working table is a simple walk of n hops. */
  lemma {:induction false} TableSound(g: Graph, cap: nat, start: Id, n: nat, row: Row, width: nat)
    returns (p: seq<Id>)
    requires IdTexts(g.links, start, width) && row in Table(g, cap, start, n)
    ensures |p| == n + 1 && row == RowOf(p) && Simple(p) && Walk(g, p, start, row.document)
  {
    if n == 0 {
      p := [start];
    } else {
      var r, l := Parent(g, cap, Table(g, cap, start, n - 1), row);
      var q := TableSound(g, cap, start, n - 1, r, width);
      WalkTexts(g, start, q, r.document, width);
      VisitedGuardExact(q, Far(l, g.forward), width);
      ExtendWalk(g, start, q, l);
      p := q + [row.document];
    }
  }

  lemma ExtendWalk(g: Graph, start: Id, q: seq<Id>, l: Link)
    requires q != [] && Walk(g, q, start, Near(l, g.forward)) && Simple(q)
    requires l in g.links && l.tenant == g.tenant && Far(l, g.forward) !in q
    ensures var p := q + [Far(l, g.forward)];
      Walk(g, p, start, Far(l, g.forward)) && Simple(p) && Join(p) == Join(q) + "," + Far(l, g.forward)
  {
    var p := q + [Far(l, g.forward)];
    assert p[..|q|] == q;
    forall i | 0 <= i < |p| - 1 ensures Edge(g, p[i], p[i + 1]) {
      if i < |q| - 1 {
        assert Edge(g, q[i], q[i + 1]);
      }
    }
  }

  /** Every simple walk of at most cap hops is a row of the n-th working table. */
  lemma {:induction false} TableComplete(g: Graph, cap: nat, start: Id, p: seq<Id>, to: Id, width: nat)
    requires IdTexts(g.links, start, width) && Walk(g, p, start, to) && Simple(p)
    requires |p| <= cap + 1
    ensures RowOf(p) in Table(g, cap, start, |p| - 1)
  {
    var n := |p| - 1;
    if n > 0 {
      var q := p[..n];
      forall i | 0 <= i < |q| - 1 ensures Edge(g, q[i], q[i + 1]) {
        assert Edge(g, p[i], p[i + 1]);
      }
      TableComplete(g, cap, start, q, q[n - 1], width);
      assert Edge(g, p[n - 1], p[n - 1 + 1]);
      var l :| l in g.links && l.tenant == g.tenant && Near(l, g.forward) == p[n - 1] && Far(l, g.forward) == p[n];
      WalkTexts(g, start, q, q[n - 1], width);
      VisitedGuardExact(q, p[n], width);
      var r := RowOf(q);
      assert r in Table(g, cap, start, n - 1) && Near(l, g.forward) == r.document;
    }
  }

  lemma {:induction false} EmptyStays(g: Graph, cap: nat, start: Id, n: nat, m: nat)
    requires n <= m && Table(g, cap, start, n) == {}
    ensures Table(g, cap, start, m) == {}
  {
    if n < m {
      EmptyStays(g, cap, start, n, m - 1);
    }
  }

  /** row belongs to one of the working tables n to cap. */
  predicate InTables(g: Graph, cap: nat, start: Id, n: nat, row: Row) {
    n <= row.depth <= cap && row in Table(g, cap, start, row.depth)
  }

  /** Evaluation from the n-th working table returns exactly the working tables n to cap. */
  lemma {:induction false} EvaluateIsTables(g: Graph, cap: nat, start: Id, n: nat, row: Row, rows: set<Row>)
    requires n <= cap + 1 && rows == Table(g, cap, start, n)
    requires n > cap ==> rows == {}
    ensures row in Evaluate(g, cap, rows, n) <==> InTables(g, cap, start, n, row)
    decreases cap + 1 - n
  {
    if rows == {} {
      EmptyFrom(g, cap, start, n, row);
    } else {
      var next := NextRows(g, cap, rows);
      EvaluateStep(g, cap, rows, n);
      EvaluateIsTables(g, cap, start, n + 1, row, next);
      InOneTable(g, cap, start, n, row);
    }
  }

  lemma EvaluateStep(g: Graph, cap: nat, rows: set<Row>, depth: nat)
    requires AllAtDepth(rows, depth) && depth <= cap && rows != {}
    ensures AllAtDepth(NextRows(g, cap, rows), depth + 1) && (depth == cap ==> NextRows(g, cap, rows) == {})
    ensures Evaluate(g, cap, rows, depth) == rows + Evaluate(g, cap, NextRows(g, cap, rows), depth + 1)
  {
  }

  lemma EmptyFrom(g: Graph, cap: nat, start: Id, n: nat, row: Row)
    requires Table(g, cap, start, n) == {}
    ensures !InTables(g, cap, start, n, row)
  {
    if n <= row.depth {
      EmptyStays(g, cap, start, n, row.depth);
    }
  }

  lemma InOneTable(g: Graph, cap: nat, start: Id, n: nat, row: Row)
    ensures n <= cap ==>
      (InTables(g, cap, start, n, row) <==> row in Table(g, cap, start, n) || InTables(g, cap, start, n + 1, row))
  {
    assert AllAtDepth(Table(g, cap, start, n), n);
  }

  lemma RowIsWithinHops(g: Graph, cap: nat, start: Id, row: Row, width: nat)
    requires IdTexts(g.links, start, width) && InTables(g, cap, start, 0, row)
    ensures WithinHops(g, cap, start, row.document)
  {
    var p := TableSound(g, cap, start, row.depth, row, width);
    assert |p| <= cap + 1;
  }

  lemma WithinHopsHasRow(g: Graph, cap: nat, start: Id, id: Id, width: nat) returns (row: Row)
    requires IdTexts(g.links, start, width) && WithinHops(g, cap, start, id)
    ensures row.document == id && InTables(g, cap, start, 0, row)
  {
    var w :| Walk(g, w, start, id) && |w| <= cap + 1;
    var p := Shorten(g, w, start, id);
    TableComplete(g, cap, start, p, id, width);
    row := RowOf(p);
  }

  /** One direction of the query collects exactly the documents within `cap` hops, on any link graph, cyclic or not. */
  lemma ReachExact(g: Graph, cap: nat, start: Id, id: Id, width: nat)
    requires IdTexts(g.links, start, width)
    ensures id in Reach(g, cap, start) <==> WithinHops(g, cap, start, id)
  {
    if id in Reach(g, cap, start) {
      var row :| row in Evaluate(g, cap, {Row(start, 0, start)}, 0) && row.document == id;
      EvaluateIsTables(g, cap, start, 0, row, {Row(start, 0, start)});
      RowIsWithinHops(g, cap, start, row, width);
    } else if WithinHops(g, cap, start, id) {
      var row := WithinHopsHasRow(g, cap, start, id, width);
      EvaluateIsTables(g, cap, start, 0, row, {Row(start, 0, start)});
    }
  }

  // ---- The chain --------------------------------------------------------------------------

  /** Reachable along edges (descendants) or against them (ancestors) within the cap. */
  ghost predicate Related(links: set<Link>, tenant: Tenant, start: Id, id: Id) {
    WithinHops(Graph(links, tenant, false), MAX_CHAIN_DEPTH, start, id) ||
    WithinHops(Graph(links, tenant, true), MAX_CHAIN_DEPTH, start, id)
  }

  /** The nodes are exactly the tenant's registered documents within 20 hops along or against the
      links. */
  lemma ChainNodesExact(documents: set<Document>, links: set<Link>, tenant: Tenant, start: Id, width: nat, id: Id)
    requires IdTexts(links, start, width)
    ensures id in GetDocumentChain(documents, links, tenant, start).nodes <==>
      Document(tenant, id) in documents && Related(links, tenant, start, id)
  {
    ReachExact(Graph(links, tenant, false), MAX_CHAIN_DEPTH, start, id, width);
    ReachExact(Graph(links, tenant, true), MAX_CHAIN_DEPTH, start, id, width);
    if Document(tenant, id) in documents && Related(links, tenant, start, id) {
      assert Document(tenant, id).id == id;
    }
  }

  /** The edges are exactly the tenant's links between related registered documents. */
  lemma ChainEdgesExact(documents: set<Document>, links: set<Link>, tenant: Tenant, start: Id, width: nat, l: Link)
    requires IdTexts(links, start, width)
    ensures l in GetDocumentChain(documents, links, tenant, start).edges <==>
      && l in links && l.tenant == tenant
      && Document(tenant, l.predecessor) in documents && Related(links, tenant, start, l.predecessor)
      && Document(tenant, l.successor) in documents && Related(links, tenant, start, l.successor)
  {
    ChainNodesExact(documents, links, tenant, start, width, l.predecessor);
    ChainNodesExact(documents, links, tenant, start, width, l.successor);
  }

  /** The flag named `forward` walks to predecessors: its one-hop neighbours are the documents that
      precede the start. */
  lemma ForwardFlagWalksToPredecessors(links: set<Link>, tenant: Tenant, a: Id, b: Id)
    ensures Edge(Graph(links, tenant, true), a, b) <==> Link(tenant, b, a) in links
    ensures Edge(Graph(links, tenant, false), a, b) <==> Link(tenant, a, b) in links
  {
    if Edge(Graph(links, tenant, true), a, b) {
      var l :| l in links && l.tenant == tenant && Near(l, true) == a && Far(l, true) == b;
      assert l == Link(tenant, b, a);
    }
    if Edge(Graph(links, tenant, false), a, b) {
      var l :| l in links && l.tenant == tenant && Near(l, false) == a && Far(l, false) == b;
      assert l == Link(tenant, a, b);
    }
    if Link(tenant, b, a) in links { assert Near(Link(tenant, b, a), true) == a; }
    if Link(tenant, a, b) in links { assert Near(Link(tenant, a, b), false) == a; }
  }

  // ---- Against the documented "connected component" ---------------------------------------------

  ghost predicate Touching(links: set<Link>, tenant: Tenant, a: Id, b: Id) {
    Edge(Graph(links, tenant, true), a, b) || Edge(Graph(links, tenant, false), a, b)
  }

  ghost predicate Connection(links: set<Link>, tenant: Tenant, w: seq<Id>, from: Id, to: Id) {
    && w != [] && w[0] == from && w[|w| - 1] == to
    && forall i :: 0 <= i < |w| - 1 ==> Touching(links, tenant, w[i], w[i + 1])
  }

  ghost predicate Connected(links: set<Link>, tenant: Tenant, from: Id, to: Id) {
    exists w :: Connection(links, tenant, w, from, to)
  }

  /** No link of the tenant has exactly one end within the cap of the start. */
  ghost predicate Closed(links: set<Link>, tenant: Tenant, start: Id) {
    forall l :: l in links && l.tenant == tenant ==>
      (Related(links, tenant, start, l.predecessor) <==> Related(links, tenant, start, l.successor))
  }

  lemma {:induction false} ClosedKeepsConnection(links: set<Link>, tenant: Tenant, start: Id, w: seq<Id>, from: Id,
    to: Id)
    requires Closed(links, tenant, start) && Related(links, tenant, start, from)
    requires Connection(links, tenant, w, from, to)
    ensures Related(links, tenant, start, to)
    decreases |w|
  {
    if |w| > 1 {
      assert Touching(links, tenant, w[0], w[0 + 1]);
      forall i | 0 <= i < |w[1..]| - 1 ensures Touching(links, tenant, w[1..][i], w[1..][i + 1]) {
        assert Touching(links, tenant, w[i + 1], w[i + 1 + 1]);
      }
      StepStaysRelated(links, tenant, start, w[0], w[1]);
      ClosedKeepsConnection(links, tenant, start, w[1..], w[1], to);
    }
  }

  lemma StepStaysRelated(links: set<Link>, tenant: Tenant, start: Id, a: Id, b: Id)
    requires Closed(links, tenant, start) && Related(links, tenant, start, a) && Touching(links, tenant, a, b)
    ensures Related(links, tenant, start, b)
  {
    ForwardFlagWalksToPredecessors(links, tenant, a, b);
    var l := if Link(tenant, a, b) in links then Link(tenant, a, b) else Link(tenant, b, a);
    assert l in links && l.tenant == tenant;
  }

  lemma RelatedIsConnected(links: set<Link>, tenant: Tenant, start: Id, id: Id)
    requires Related(links, tenant, start, id)
    ensures Connected(links, tenant, start, id)
  {
    var forward := WithinHops(Graph(links, tenant, true), MAX_CHAIN_DEPTH, start, id);
    var w :| Walk(Graph(links, tenant, forward), w, start, id) && |w| <= MAX_CHAIN_DEPTH + 1;
    forall i | 0 <= i < |w| - 1 ensures Touching(links, tenant, w[i], w[i + 1]) {
      assert Edge(Graph(links, tenant, forward), w[i], w[i + 1]);
    }
    assert Connection(links, tenant, w, start, id);
  }

  /** The traversal yields the whole connected component if and only if no link has exactly one end
      within the cap of the start. */
  lemma ComponentIffClosed(links: set<Link>, tenant: Tenant, start: Id, width: nat)
    requires IdTexts(links, start, width)
    ensures (forall id :: id in Reached(links, tenant, start) <==> Connected(links, tenant, start, id))
      <==> Closed(links, tenant, start)
  {
    forall id ensures id in Reached(links, tenant, start) <==> Related(links, tenant, start, id) {
      ReachExact(Graph(links, tenant, false), MAX_CHAIN_DEPTH, start, id, width);
      ReachExact(Graph(links, tenant, true), MAX_CHAIN_DEPTH, start, id, width);
    }
    if Closed(links, tenant, start) {
      forall id ensures Related(links, tenant, start, id) <==> Connected(links, tenant, start, id) {
        ClosedIsComponent(links, tenant, start, id);
      }
    }
    if forall id :: Related(links, tenant, start, id) <==> Connected(links, tenant, start, id) {
      forall l | l in links && l.tenant == tenant
        ensures Related(links, tenant, start, l.predecessor) <==> Related(links, tenant, start, l.successor)
      {
        LinkEndsConnected(links, tenant, start, l);
      }
    }
  }

  lemma ClosedIsComponent(links: set<Link>, tenant: Tenant, start: Id, id: Id)
    requires Closed(links, tenant, start)
    ensures Related(links, tenant, start, id) <==> Connected(links, tenant, start, id)
  {
    if Related(links, tenant, start, id) {
      RelatedIsConnected(links, tenant, start, id);
    }
    if Connected(links, tenant, start, id) {
      var w :| Connection(links, tenant, w, start, id);
      assert Walk(Graph(links, tenant, true), [start], start, start);
      ClosedKeepsConnection(links, tenant, start, w, start, id);
    }
  }

  lemma LinkEndsConnected(links: set<Link>, tenant: Tenant, start: Id, l: Link)
    requires l in links && l.tenant == tenant
    ensures Connected(links, tenant, start, l.predecessor) <==> Connected(links, tenant, start, l.successor)
  {
    assert Near(l, false) == l.predecessor && Near(l, true) == l.successor;
    if Connected(links, tenant, start, l.predecessor) {
      StepStaysConnected(links, tenant, start, l.predecessor, l.successor);
    }
    if Connected(links, tenant, start, l.successor) {
      StepStaysConnected(links, tenant, start, l.successor, l.predecessor);
    }
  }

  lemma StepStaysConnected(links: set<Link>, tenant: Tenant, start: Id, a: Id, b: Id)
    requires Connected(links, tenant, start, a) && Touching(links, tenant, a, b)
    ensures Connected(links, tenant, start, b)
  {
    var w :| Connection(links, tenant, w, start, a);
    var v := w + [b];
    forall i | 0 <= i < |v| - 1 ensures Touching(links, tenant, v[i], v[i + 1]) {
      if i < |w| - 1 { assert Touching(links, tenant, w[i], w[i + 1]); }
    }
    assert Connection(links, tenant, v, start, b);
  }

  /** Two children of one parent: from one child, the sibling is connected and not returned. */
  lemma SiblingIsMissed(p: Id, a: Id, b: Id, width: nat)
    requires IsIdText(p, width) && IsIdText(a, width) && IsIdText(b, width) && p != a && p != b && a != b
    ensures var links := {Link(0, p, a), Link(0, p, b)};
      var documents := {Document(0, p), Document(0, a), Document(0, b)};
      Connected(links, 0, a, b) && b !in GetDocumentChain(documents, links, 0, a).nodes
  {
    var links := {Link(0, p, a), Link(0, p, b)};
    ForwardFlagWalksToPredecessors(links, 0, a, p);
    ForwardFlagWalksToPredecessors(links, 0, p, b);
    var w := [a, p, b];
    assert Touching(links, 0, w[0], w[1]) && Touching(links, 0, w[1], w[2]);
    assert Connection(links, 0, w, a, b);
    NoWalkToSibling(links, p, a, b, width, false);
    NoWalkToSibling(links, p, a, b, width, true);
  }

  lemma NoWalkToSibling(links: set<Link>, p: Id, a: Id, b: Id, width: nat, forward: bool)
    requires links == {Link(0, p, a), Link(0, p, b)} && p != a && p != b && a != b && IdTexts(links, a, width)
    ensures b !in Reach(Graph(links, 0, forward), MAX_CHAIN_DEPTH, a)
  {
    ReachExact(Graph(links, 0, forward), MAX_CHAIN_DEPTH, a, b, width);
    forall w ensures !Walk(Graph(links, 0, forward), w, a, b) {
      if |w| >= 2 { OnlyUpToParent(links, p, a, b, forward, w[0 + 1]); }
      if |w| >= 3 { OnlyUpToParent(links, p, a, b, forward, w[1 + 1]); }
    }
  }

  lemma OnlyUpToParent(links: set<Link>, p: Id, a: Id, b: Id, forward: bool, x: Id)
    requires links == {Link(0, p, a), Link(0, p, b)} && p != a && p != b && a != b
    ensures Edge(Graph(links, 0, forward), a, x) ==> forward && x == p
    ensures forward ==> !Edge(Graph(links, 0, forward), p, x)
  {
    ForwardFlagWalksToPredecessors(links, 0, a, x);
    ForwardFlagWalksToPredecessors(links, 0, p, x);
  }

  // ---- The guard alone terminates ---------------------------------------------------------------

  lemma {:induction false} SimpleFits(w: seq<Id>, universe: set<Id>)
    requires Simple(w) && forall x :: x in w ==> x in universe
    ensures |w| <= |universe|
  {
    if w != [] {
      var n := |w| - 1;
      forall x | x in w[..n] ensures x in universe - {w[n]} {
        var i :| 0 <= i < n && w[i] == x;
      }
      SimpleFits(w[..n], universe - {w[n]});
    }
  }

  /** Whatever the depth cap, the visited guard alone makes a walk run dry: no working table survives
      past the number of documents, cycles included. */
  lemma GuardBoundsDepth(g: Graph, cap: nat, start: Id, n: nat, width: nat, universe: set<Id>)
    requires IdTexts(g.links, start, width) && start in universe && n >= |universe|
    requires forall l :: l in g.links ==> l.predecessor in universe && l.successor in universe
    ensures Table(g, cap, start, n) == {}
  {
    if row :| row in Table(g, cap, start, n) {
      var p := TableSound(g, cap, start, n, row, width);
      forall i | 0 <= i < |p| ensures p[i] in universe {
        if i > 0 { assert Edge(g, p[i - 1], p[i - 1 + 1]); }
      }
      SimpleFits(p, universe);
    }
  }
}
