/** Loading the paths of a provenance query into the relational tables. The graph
    database is an input: what its queries return for a node, an edge, a process. */
module Loader {
  import opened Basics
  import opened Text
  import opened Uuid

  datatype NodeRow = NodeRow(uuid: string, nodeType: string, cid: nat, filename: string,
                             localIp: string, localPort: int, remoteIp: string, remotePort: int)

  datatype EdgeRow = EdgeRow(uuid: Option<string>, eventType: string, ts: string, size: int)

  /** A file executed by a process, and the process's principal. */
  datatype ExecRow = ExecRow(name: string, principal: Option<string>)

  datatype Graph = Graph(nodes: map<string, seq<NodeRow>>, edges: map<string, EdgeRow>, execs: map<string, seq<ExecRow>>) {
    function NodeMeta(id: string): seq<NodeRow> { if id in nodes then nodes[id] else [] }
    function Executed(uuid: string): seq<ExecRow> { if uuid in execs then execs[uuid] else [] }
  }

  /** A path as the graph database returns it: resource names, last part the id. */
  datatype Path = Path(nodes: seq<string>, edges: seq<string>, directions: seq<string>)

  datatype SubjectRow = SubjectRow(uuid: string, path: string, pid: nat, principal: string)
  datatype FileRow = FileRow(uuid: string, path: string, queryId: string)
  datatype NetflowRow = NetflowRow(uuid: string, localIp: string, localPort: int, remoteIp: string, remotePort: int, queryId: string)
  datatype SubgraphRow = SubgraphRow(queryId: string, subjectUuid: string, eventType: string, eventUuid: string,
                                     eventSize: int, eventTs: string, fileUuid: string, netflowUuid: string)

  function LastPart(url: string): string {
    var parts := Split(url, '/');
    parts[|parts| - 1]
  }

  /** What '{}'.format writes into the statement: a missing value becomes the
      text None, not a null. */
  function Formatted(value: Option<string>): string {
    match value
    case Some(v) => v
    case None => "None"
  }

  function Stripped(uuid: Option<string>): string {
    match StripHost(uuid)
    case Ok(v) => Formatted(v)
    case _ => ""
  }

  predicate Relevant(eventType: string) {
    eventType in ["EVENT_READ", "EVENT_WRITE", "EVENT_SEND", "EVENT_RECV"]
  }

  // ----- When loading succeeds, and what it adds -----

  predicate NodeLoads(g: Graph, r: NodeRow) {
    && |Split(r.uuid, '-')| >= 2
    && (r.nodeType == "SUBJECT" ==>
        forall k :: 0 <= k < |g.Executed(r.uuid)| ==> StripHost(g.Executed(r.uuid)[k].principal).Ok?)
  }

  predicate NodesLoad(g: Graph, rs: seq<NodeRow>) {
    forall k :: 0 <= k < |rs| ==> NodeLoads(g, rs[k])
  }

  predicate HopLoads(g: Graph, n1: string, n2: string, e: string) {
    && e in g.edges
    && (Relevant(g.edges[e].eventType) ==>
        NodesLoad(g, g.NodeMeta(n1)) && NodesLoad(g, g.NodeMeta(n2)) && StripHost(g.edges[e].uuid).Ok?)
  }

  /** The uuid of the last row of the given type. */
  function LastOfType(rs: seq<NodeRow>, nodeType: string): Option<string> {
    if rs == [] then None
    else if rs[|rs| - 1].nodeType == nodeType then Some(rs[|rs| - 1].uuid)
    else LastOfType(rs[..|rs| - 1], nodeType)
  }

  /** The value a loop over the rows leaves in a variable that held `before`. */
  function Latest(before: Option<string>, rs: seq<NodeRow>, nodeType: string): Option<string> {
    if LastOfType(rs, nodeType).Some? then LastOfType(rs, nodeType) else before
  }

  /** Two loops, one after the other, leave the last row of both. */
  lemma {:induction false} LatestConcat(a: seq<NodeRow>, b: seq<NodeRow>, nodeType: string)
    ensures Latest(LastOfType(a, nodeType), b, nodeType) == LastOfType(a + b, nodeType)
  {
    if b == [] {
      assert a + b == a;
    } else {
      var n := |b| - 1;
      LatestConcat(a, b[..n], nodeType);
      assert (a + b)[..|a + b| - 1] == a + b[..n];
    }
  }

  /** The uuid of the last row of the given type among those of two nodes. */
  function LastOfTwo(g: Graph, n1: string, n2: string, nodeType: string): Option<string> {
    Latest(LastOfType(g.NodeMeta(n1), nodeType), g.NodeMeta(n2), nodeType)
  }

  /** The subgraph rows of one hop: one for a relevant edge, none otherwise. */
  function HopRows(g: Graph, qid: string, n1: string, n2: string, e: string): seq<SubgraphRow>
    requires e in g.edges
  {
    var edge := g.edges[e];
    if !Relevant(edge.eventType) then []
    else
      [SubgraphRow(qid, Stripped(LastOfTwo(g, n1, n2, "SUBJECT")), edge.eventType, Stripped(edge.uuid), edge.size, edge.ts,
                   Stripped(LastOfTwo(g, n1, n2, "FILE")), Stripped(LastOfTwo(g, n1, n2, "NETFLOW")))]
  }

  predicate HopsLoad(g: Graph, p: Path, hops: nat) {
    && hops <= |p.nodes| && hops <= |p.edges| && hops <= |p.directions|
    && (hops > 0 ==> hops < |p.nodes|)
    && forall i :: 0 <= i < hops ==> HopLoads(g, LastPart(p.nodes[i]), LastPart(p.nodes[i + 1]), LastPart(p.edges[i]))
  }

  function Hops(p: Path): nat { if p.nodes == [] then 0 else |p.nodes| - 1 }

  function PathRows(g: Graph, qid: string, p: Path, hops: nat): seq<SubgraphRow>
    requires HopsLoad(g, p, hops)
  {
    if hops == 0 then []
    else PathRows(g, qid, p, hops - 1)
         + HopRows(g, qid, LastPart(p.nodes[hops - 1]), LastPart(p.nodes[hops]), LastPart(p.edges[hops - 1]))
  }

  predicate PathsLoad(g: Graph, paths: seq<Path>) {
    forall k :: 0 <= k < |paths| ==> HopsLoad(g, paths[k], Hops(paths[k]))
  }

  function AllRows(g: Graph, qid: string, paths: seq<Path>): seq<SubgraphRow>
    requires PathsLoad(g, paths)
  {
    if paths == [] then []
    else
      var n := |paths| - 1;
      AllRows(g, qid, paths[..n]) + PathRows(g, qid, paths[n], Hops(paths[n]))
  }

  /** Whether the i-th edge of a path is a read, a write, a send or a receive. */
  ghost predicate MovesData(g: Graph, p: Path, i: nat) {
    && i < |p.edges| && LastPart(p.edges[i]) in g.edges
    && var ty := g.edges[LastPart(p.edges[i])].eventType;
       ty == "EVENT_READ" || ty == "EVENT_WRITE" || ty == "EVENT_SEND" || ty == "EVENT_RECV"
  }

  /** How many of the first edges of a path do. */
  ghost function DataEdges(g: Graph, p: Path, hops: nat): nat {
    if hops == 0 then 0 else DataEdges(g, p, hops - 1) + (if MovesData(g, p, hops - 1) then 1 else 0)
  }

  /** How many edges between the nodes of a path do. */
  ghost function PathDataEdges(g: Graph, p: Path): nat {
    if p.nodes == [] then 0 else DataEdges(g, p, |p.nodes| - 1)
  }

  /** The same for all paths, counted with repetition. */
  ghost function AllDataEdges(g: Graph, paths: seq<Path>): nat {
    if paths == [] then 0
    else
      AllDataEdges(g, paths[..|paths| - 1]) + PathDataEdges(g, paths[|paths| - 1])
  }

  lemma HopRowCount(g: Graph, qid: string, p: Path, i: nat, n1: string, n2: string)
    requires i < |p.edges| && LastPart(p.edges[i]) in g.edges
    ensures |HopRows(g, qid, n1, n2, LastPart(p.edges[i]))| == if MovesData(g, p, i) then 1 else 0
  {
    RelevantIff(g.edges[LastPart(p.edges[i])].eventType);
  }

  lemma RelevantIff(ty: string)
    ensures Relevant(ty) <==> ty == "EVENT_READ" || ty == "EVENT_WRITE" || ty == "EVENT_SEND" || ty == "EVENT_RECV"
  {
  }

  lemma {:induction false} PathRowCount(g: Graph, qid: string, p: Path, hops: nat)
    requires HopsLoad(g, p, hops)
    ensures |PathRows(g, qid, p, hops)| == DataEdges(g, p, hops)
  {
    if hops > 0 {
      var i := hops - 1;
      PathRowCount(g, qid, p, i);
      assert HopLoads(g, LastPart(p.nodes[i]), LastPart(p.nodes[i + 1]), LastPart(p.edges[i]));
      HopRowCount(g, qid, p, i, LastPart(p.nodes[i]), LastPart(p.nodes[i + 1]));
    }
  }

  lemma WholePathRowCount(g: Graph, qid: string, p: Path)
    requires HopsLoad(g, p, Hops(p))
    ensures |PathRows(g, qid, p, Hops(p))| == PathDataEdges(g, p)
  {
    PathRowCount(g, qid, p, Hops(p));
  }

  /** Loading adds exactly one row per edge that moves data. */
  lemma {:induction false} RowCount(g: Graph, qid: string, paths: seq<Path>)
    requires PathsLoad(g, paths)
    ensures |AllRows(g, qid, paths)| == AllDataEdges(g, paths)
  {
    if paths != [] {
      var n := |paths| - 1;
      RowCount(g, qid, paths[..n]);
      assert HopsLoad(g, paths[n], Hops(paths[n]));
      WholePathRowCount(g, qid, paths[n]);
      assert AllRows(g, qid, paths) == AllRows(g, qid, paths[..n]) + PathRows(g, qid, paths[n], Hops(paths[n]));
    }
  }

  // ----- When a hop loads -----

  /** The text is what a host prefix can be taken from: missing, empty, or with a
      dash in it. */
  predicate Strippable(value: Option<string>) {
    value.None? || value.value == "" || '-' in value.value
  }

  lemma StrippableIff(value: Option<string>)
    ensures StripHost(value).Ok? <==> Strippable(value)
  {
    if value.Some? { SplitsIff(value.value); }
  }

  lemma SplitsIff(u: string)
    ensures |Split(u, '-')| >= 2 <==> '-' in u
  {
    if '-' in u { SecondPieceKept(u, "", '-'); } else { SplitWhole(u, '-'); }
  }

  /** A node's row can be stored: its identifier has a dash, and so have the principals
      of a process's executed files, as far as they are there. */
  predicate Storable(g: Graph, r: NodeRow) {
    && '-' in r.uuid
    && (r.nodeType == "SUBJECT" && r.uuid in g.execs ==>
        forall k :: 0 <= k < |g.execs[r.uuid]| ==> Strippable(g.execs[r.uuid][k].principal))
  }

  /** A hop loads if and only if its edge is known and, when it moves data, its nodes
      can be stored and its own identifier stripped. */
  lemma HopLoadsIff(g: Graph, p: Path, i: nat)
    requires i + 1 < |p.nodes| && i < |p.edges|
    ensures var n1, n2, e := LastPart(p.nodes[i]), LastPart(p.nodes[i + 1]), LastPart(p.edges[i]);
            (HopLoads(g, n1, n2, e)
             <==> && e in g.edges
                  && (MovesData(g, p, i) ==>
                      && (forall k :: 0 <= k < |g.NodeMeta(n1)| ==> Storable(g, g.NodeMeta(n1)[k]))
                      && (forall k :: 0 <= k < |g.NodeMeta(n2)| ==> Storable(g, g.NodeMeta(n2)[k]))
                      && Strippable(g.edges[e].uuid)))
  {
    var n1, n2, e := LastPart(p.nodes[i]), LastPart(p.nodes[i + 1]), LastPart(p.edges[i]);
    NodesLoadIff(g, g.NodeMeta(n1));
    NodesLoadIff(g, g.NodeMeta(n2));
    if e in g.edges { StrippableIff(g.edges[e].uuid); }
  }

  lemma NodeLoadsIff(g: Graph, r: NodeRow)
    ensures NodeLoads(g, r) <==> Storable(g, r)
  {
    SplitsIff(r.uuid);
    var xs := g.Executed(r.uuid);
    forall j | 0 <= j < |xs| ensures StripHost(xs[j].principal).Ok? <==> Strippable(xs[j].principal) {
      StrippableIff(xs[j].principal);
    }
    assert r.uuid in g.execs ==> xs == g.execs[r.uuid];
  }

  lemma NodesLoadIff(g: Graph, rs: seq<NodeRow>)
    ensures NodesLoad(g, rs) <==> forall k :: 0 <= k < |rs| ==> Storable(g, rs[k])
  {
    forall k | 0 <= k < |rs| ensures NodeLoads(g, rs[k]) <==> Storable(g, rs[k]) { NodeLoadsIff(g, rs[k]); }
  }

  lemma WholeLastPart(url: string)
    requires '/' !in url
    ensures LastPart(url) == url && IsLastPart(url, url)
  {
    SplitWhole(url, '/');
  }

  /** Node and edge identifiers are the last parts of their resource names. */
  lemma {:induction false} LastPartMeaning(url: string)
    ensures IsLastPart(LastPart(url), url)
  {
    if '/' in url {
      var text := url[1..];
      LastPartMeaning(text);
      assert url == [url[0]] + text;
      SameLastPart(url);
      LastPartExtends(url[0], LastPart(text), text);
    } else {
      WholeLastPart(url);
    }
  }

  lemma SameLastPart(url: string)
    requires url != "" && (url[0] == '/' || '/' in url[1..])
    ensures LastPart(url) == LastPart(url[1..])
  {
    if url[0] != '/' { SecondPieceKept(url[1..], "", '/'); }
  }

  lemma LastPartExtends(c: char, part: string, text: string)
    requires IsLastPart(part, text) && (c == '/' || '/' in text)
    ensures IsLastPart(part, [c] + text)
  {
    var all := [c] + text;
    assert all[|all| - |part|..] == text[|text| - |part|..];
    assert |part| == |text| ==> part == text;
  }

  // ----- The node tables -----

  /** The contents of the three node tables. */
  datatype Nodes = Nodes(subject: seq<SubjectRow>, file: seq<FileRow>, netflow: seq<NetflowRow>)

  ghost predicate HasSubject(t: seq<SubjectRow>, u: string) {
    exists k :: 0 <= k < |t| && t[k].uuid == u
  }

  ghost predicate HasFile(t: seq<FileRow>, u: string, q: string) {
    exists k :: 0 <= k < |t| && t[k].uuid == u && t[k].queryId == q
  }

  ghost predicate HasNetflow(t: seq<NetflowRow>, u: string, q: string) {
    exists k :: 0 <= k < |t| && t[k].uuid == u && t[k].queryId == q
  }

  /** INSERT ... WHERE NOT EXISTS. */
  ghost function PutSubject(t: seq<SubjectRow>, row: SubjectRow): seq<SubjectRow> {
    if HasSubject(t, row.uuid) then t else t + [row]
  }

  ghost function PutFile(t: seq<FileRow>, row: FileRow): seq<FileRow> {
    if HasFile(t, row.uuid, row.queryId) then t else t + [row]
  }

  ghost function PutNetflow(t: seq<NetflowRow>, row: NetflowRow): seq<NetflowRow> {
    if HasNetflow(t, row.uuid, row.queryId) then t else t + [row]
  }

  /** The row of a process: named after the first file it executed, if any. */
  ghost function ProcessRow(g: Graph, r: NodeRow): SubjectRow
    requires NodeLoads(g, r) && r.nodeType == "SUBJECT"
  {
    var u, execs := Split(r.uuid, '-')[1], g.Executed(r.uuid);
    if execs == [] then SubjectRow(u, "", r.cid, "")
    else ExecutedRow(r, u, execs[0])
  }

  ghost function ExecutedRow(r: NodeRow, u: string, x: ExecRow): SubjectRow
    requires StripHost(x.principal).Ok?
  {
    SubjectRow(u, Basename(x.name), r.cid, Formatted(StripHost(x.principal).value))
  }

  ghost function AddNode(n: Nodes, g: Graph, r: NodeRow, qid: string): Nodes
    requires NodeLoads(g, r)
  {
    var u := Split(r.uuid, '-')[1];
    if r.nodeType == "SUBJECT" then n.(subject := PutSubject(n.subject, ProcessRow(g, r)))
    else if r.nodeType == "FILE" then n.(file := PutFile(n.file, FileRow(u, r.filename, qid)))
    else if r.nodeType == "NETFLOW" then
      n.(netflow := PutNetflow(n.netflow, NetflowRow(u, r.localIp, r.localPort, r.remoteIp, r.remotePort, qid)))
    else n
  }

  ghost function AddNodes(n: Nodes, g: Graph, rs: seq<NodeRow>, qid: string): Nodes
    requires NodesLoad(g, rs)
  {
    if rs == [] then n else AddNode(AddNodes(n, g, rs[..|rs| - 1], qid), g, rs[|rs| - 1], qid)
  }

  ghost function AddHop(n: Nodes, g: Graph, qid: string, n1: string, n2: string, e: string): Nodes
    requires HopLoads(g, n1, n2, e)
  {
    if Relevant(g.edges[e].eventType) then AddNodes(AddNodes(n, g, g.NodeMeta(n1), qid), g, g.NodeMeta(n2), qid) else n
  }

  ghost function AddPath(n: Nodes, g: Graph, qid: string, p: Path, hops: nat): Nodes
    requires HopsLoad(g, p, hops)
  {
    if hops == 0 then n
    else AddHop(AddPath(n, g, qid, p, hops - 1), g, qid,
                LastPart(p.nodes[hops - 1]), LastPart(p.nodes[hops]), LastPart(p.edges[hops - 1]))
  }

  ghost function AddPaths(n: Nodes, g: Graph, qid: string, paths: seq<Path>): Nodes
    requires PathsLoad(g, paths)
  {
    if paths == [] then n
    else
      var k := |paths| - 1;
      AddPath(AddPaths(n, g, qid, paths[..k]), g, qid, paths[k], Hops(paths[k]))
  }

  // ----- Integrity -----

  ghost predicate UniqueKeys(n: Nodes) {
    && (forall a, b :: 0 <= a < b < |n.subject| ==> n.subject[a].uuid != n.subject[b].uuid)
    && (forall a, b :: 0 <= a < b < |n.file| ==> n.file[a].uuid != n.file[b].uuid || n.file[a].queryId != n.file[b].queryId)
    && (forall a, b :: 0 <= a < b < |n.netflow| ==>
          n.netflow[a].uuid != n.netflow[b].uuid || n.netflow[a].queryId != n.netflow[b].queryId)
  }

  /** A subgraph row refers only to rows that are there; a missing node is the
      text None. */
  ghost predicate RowJoins(n: Nodes, row: SubgraphRow) {
    && (row.subjectUuid == "None" || HasSubject(n.subject, row.subjectUuid))
    && (row.fileUuid == "None" || HasFile(n.file, row.fileUuid, row.queryId))
    && (row.netflowUuid == "None" || HasNetflow(n.netflow, row.netflowUuid, row.queryId))
  }

  ghost predicate Sound(n: Nodes, subgraph: seq<SubgraphRow>) {
    UniqueKeys(n) && forall k :: 0 <= k < |subgraph| ==> RowJoins(n, subgraph[k])
  }

  /** Rows stay where they are. */
  ghost predicate Grows(n: Nodes, m: Nodes) {
    n.subject <= m.subject && n.file <= m.file && n.netflow <= m.netflow
  }

  lemma GrowsKeepsRows(n: Nodes, m: Nodes)
    requires Grows(n, m)
    ensures forall u :: HasSubject(n.subject, u) ==> HasSubject(m.subject, u)
    ensures forall u, q :: HasFile(n.file, u, q) ==> HasFile(m.file, u, q)
    ensures forall u, q :: HasNetflow(n.netflow, u, q) ==> HasNetflow(m.netflow, u, q)
  {
  }

  lemma GrowsKeepsSound(n: Nodes, m: Nodes, subgraph: seq<SubgraphRow>)
    requires Sound(n, subgraph) && Grows(n, m) && UniqueKeys(m)
    ensures Sound(m, subgraph)
  {
  }

  lemma GrowsTransitive(n: Nodes, m: Nodes, l: Nodes)
    requires Grows(n, m) && Grows(m, l)
    ensures Grows(n, l)
  {
  }

  lemma PutSubjectLaws(t: seq<SubjectRow>, row: SubjectRow)
    ensures t <= PutSubject(t, row) && HasSubject(PutSubject(t, row), row.uuid)
  {
    if !HasSubject(t, row.uuid) { assert PutSubject(t, row)[|t|] == row; }
  }

  /** A second insertion under the same key changes nothing. */
  lemma PutAgain(t: seq<SubjectRow>, first: SubjectRow, second: SubjectRow)
    requires first.uuid == second.uuid
    ensures PutSubject(PutSubject(t, first), second) == PutSubject(t, first)
  {
    PutSubjectLaws(t, first);
  }

  lemma PutKeepsSound(n: Nodes, subgraph: seq<SubgraphRow>, row: SubjectRow)
    requires Sound(n, subgraph)
    ensures var m := n.(subject := PutSubject(n.subject, row)); Sound(m, subgraph) && Grows(n, m)
  {
    PutSubjectLaws(n.subject, row);
    GrowsKeepsSound(n, n.(subject := PutSubject(n.subject, row)), subgraph);
  }

  lemma PutFileLaws(t: seq<FileRow>, row: FileRow)
    ensures t <= PutFile(t, row) && HasFile(PutFile(t, row), row.uuid, row.queryId)
  {
    if !HasFile(t, row.uuid, row.queryId) { assert PutFile(t, row)[|t|] == row; }
  }

  lemma PutNetflowLaws(t: seq<NetflowRow>, row: NetflowRow)
    ensures t <= PutNetflow(t, row) && HasNetflow(PutNetflow(t, row), row.uuid, row.queryId)
  {
    if !HasNetflow(t, row.uuid, row.queryId) { assert PutNetflow(t, row)[|t|] == row; }
  }

  /** The row's node is in the table of its type. */
  ghost predicate Inserted(n: Nodes, r: NodeRow, qid: string) {
    && |Split(r.uuid, '-')| >= 2
    && var u := Split(r.uuid, '-')[1];
       && (r.nodeType == "SUBJECT" ==> HasSubject(n.subject, u))
       && (r.nodeType == "FILE" ==> HasFile(n.file, u, qid))
       && (r.nodeType == "NETFLOW" ==> HasNetflow(n.netflow, u, qid))
  }

  lemma AddNodeLaws(n: Nodes, g: Graph, r: NodeRow, qid: string)
    requires NodeLoads(g, r) && UniqueKeys(n)
    ensures var m := AddNode(n, g, r, qid); UniqueKeys(m) && Grows(n, m) && Inserted(m, r, qid)
  {
    var u := Split(r.uuid, '-')[1];
    if r.nodeType == "SUBJECT" {
      PutSubjectLaws(n.subject, ProcessRow(g, r));
    } else if r.nodeType == "FILE" {
      PutFileLaws(n.file, FileRow(u, r.filename, qid));
    } else if r.nodeType == "NETFLOW" {
      PutNetflowLaws(n.netflow, NetflowRow(u, r.localIp, r.localPort, r.remoteIp, r.remotePort, qid));
    }
  }

  ghost predicate AllInserted(n: Nodes, rs: seq<NodeRow>, qid: string) {
    forall k :: 0 <= k < |rs| ==> Inserted(n, rs[k], qid)
  }

  lemma {:induction false} AddNodesLaws(n: Nodes, g: Graph, rs: seq<NodeRow>, qid: string)
    requires NodesLoad(g, rs) && UniqueKeys(n)
    ensures var m := AddNodes(n, g, rs, qid); UniqueKeys(m) && Grows(n, m) && AllInserted(m, rs, qid)
  {
    if rs != [] {
      var k := |rs| - 1;
      AddNodesLaws(n, g, rs[..k], qid);
      var m := AddNodes(n, g, rs[..k], qid);
      AddNodeLaws(m, g, rs[k], qid);
      GrowsKeepsRows(m, AddNodes(n, g, rs, qid));
      forall j | 0 <= j < |rs| ensures Inserted(AddNodes(n, g, rs, qid), rs[j], qid) {
        if j < k { assert Inserted(m, rs[..k][j], qid); }
      }
    }
  }

  lemma {:induction false} LastInserted(n: Nodes, rs: seq<NodeRow>, qid: string, nodeType: string)
    requires AllInserted(n, rs, qid) && LastOfType(rs, nodeType).Some?
    ensures var u := Stripped(LastOfType(rs, nodeType));
            && (nodeType == "SUBJECT" ==> HasSubject(n.subject, u))
            && (nodeType == "FILE" ==> HasFile(n.file, u, qid))
            && (nodeType == "NETFLOW" ==> HasNetflow(n.netflow, u, qid))
  {
    var k := |rs| - 1;
    assert Inserted(n, rs[k], qid);
    if rs[k].nodeType != nodeType { LastInserted(n, rs[..k], qid, nodeType); }
  }

  lemma TwoInserted(n: Nodes, g: Graph, qid: string, n1: string, n2: string, nodeType: string)
    requires AllInserted(n, g.NodeMeta(n1), qid) && AllInserted(n, g.NodeMeta(n2), qid)
    ensures LastOfTwo(g, n1, n2, nodeType).Some? ==>
              var u := Stripped(LastOfTwo(g, n1, n2, nodeType));
              && (nodeType == "SUBJECT" ==> HasSubject(n.subject, u))
              && (nodeType == "FILE" ==> HasFile(n.file, u, qid))
              && (nodeType == "NETFLOW" ==> HasNetflow(n.netflow, u, qid))
  {
    if LastOfType(g.NodeMeta(n1), nodeType).Some? { LastInserted(n, g.NodeMeta(n1), qid, nodeType); }
    if LastOfType(g.NodeMeta(n2), nodeType).Some? { LastInserted(n, g.NodeMeta(n2), qid, nodeType); }
  }

  /** The row of a hop whose nodes are all in their tables joins. */
  lemma HopRowJoins(n: Nodes, g: Graph, qid: string, n1: string, n2: string, e: string)
    requires e in g.edges && Relevant(g.edges[e].eventType)
    requires AllInserted(n, g.NodeMeta(n1), qid) && AllInserted(n, g.NodeMeta(n2), qid)
    ensures RowJoins(n, HopRows(g, qid, n1, n2, e)[0])
  {
    TwoInserted(n, g, qid, n1, n2, "SUBJECT");
    TwoInserted(n, g, qid, n1, n2, "FILE");
    TwoInserted(n, g, qid, n1, n2, "NETFLOW");
  }

  /** Loading one hop keeps the tables sound, the nodes going in before the row. */
  lemma HopKeepsSound(n: Nodes, subgraph: seq<SubgraphRow>, g: Graph, qid: string, n1: string, n2: string, e: string)
    requires HopLoads(g, n1, n2, e) && Sound(n, subgraph)
    ensures Grows(n, AddHop(n, g, qid, n1, n2, e))
    ensures Sound(AddHop(n, g, qid, n1, n2, e), subgraph + HopRows(g, qid, n1, n2, e))
  {
    if Relevant(g.edges[e].eventType) {
      var m := AddNodes(n, g, g.NodeMeta(n1), qid);
      AddNodesLaws(n, g, g.NodeMeta(n1), qid);
      var l := AddNodes(m, g, g.NodeMeta(n2), qid);
      AddNodesLaws(m, g, g.NodeMeta(n2), qid);
      GrowsTransitive(n, m, l);
      GrowsKeepsRows(m, l);
      GrowsKeepsSound(n, l, subgraph);
      HopRowJoins(l, g, qid, n1, n2, e);
    } else {
      assert subgraph + [] == subgraph;
    }
  }

  lemma {:induction false} PathKeepsSound(n: Nodes, subgraph: seq<SubgraphRow>, g: Graph, qid: string, p: Path, hops: nat)
    requires HopsLoad(g, p, hops) && Sound(n, subgraph)
    ensures Grows(n, AddPath(n, g, qid, p, hops))
    ensures Sound(AddPath(n, g, qid, p, hops), subgraph + PathRows(g, qid, p, hops))
  {
    if hops == 0 {
      assert subgraph + [] == subgraph;
    } else {
      PathKeepsSound(n, subgraph, g, qid, p, hops - 1);
      var n1, n2, e := LastPart(p.nodes[hops - 1]), LastPart(p.nodes[hops]), LastPart(p.edges[hops - 1]);
      var rows := PathRows(g, qid, p, hops - 1);
      assert HopLoads(g, n1, n2, e);
      HopKeepsSound(AddPath(n, g, qid, p, hops - 1), subgraph + rows, g, qid, n1, n2, e);
      ConcatAssociates(subgraph, rows, HopRows(g, qid, n1, n2, e));
    }
  }

  /** Loading any paths into sound tables leaves them sound: keys unique, every
      subgraph row joining, old rows in place. */
  lemma {:induction false} LoadingKeepsIntegrity(n: Nodes, subgraph: seq<SubgraphRow>, g: Graph, qid: string, paths: seq<Path>)
    requires PathsLoad(g, paths) && Sound(n, subgraph)
    ensures Grows(n, AddPaths(n, g, qid, paths))
    ensures Sound(AddPaths(n, g, qid, paths), subgraph + AllRows(g, qid, paths))
  {
    if paths == [] {
      assert subgraph + [] == subgraph;
    } else {
      var k := |paths| - 1;
      LoadingKeepsIntegrity(n, subgraph, g, qid, paths[..k]);
      var rows := AllRows(g, qid, paths[..k]);
      PathKeepsSound(AddPaths(n, g, qid, paths[..k]), subgraph + rows, g, qid, paths[k], Hops(paths[k]));
      ConcatAssociates(subgraph, rows, PathRows(g, qid, paths[k], Hops(paths[k])));
    }
  }

  /** In sound tables a subgraph row joins at most one subject, and it joins one
      unless it has no process and no subject is named None. */
  lemma JoinsOneSubject(n: Nodes, subgraph: seq<SubgraphRow>, k: nat)
    requires Sound(n, subgraph) && k < |subgraph|
    ensures forall i, j :: 0 <= i < j < |n.subject| ==>
      n.subject[i].uuid != subgraph[k].subjectUuid || n.subject[j].uuid != subgraph[k].subjectUuid
    ensures HasSubject(n.subject, subgraph[k].subjectUuid)
       <==> subgraph[k].subjectUuid != "None" || HasSubject(n.subject, "None")
  {
    assert RowJoins(n, subgraph[k]);
  }

  // ----- Steps of the loops -----

  lemma LatestNext(before: Option<string>, rs: seq<NodeRow>, k: nat, nodeType: string)
    requires k < |rs|
    ensures Latest(before, rs[..k + 1], nodeType)
         == if rs[k].nodeType == nodeType then Some(rs[k].uuid) else Latest(before, rs[..k], nodeType)
  {
    assert rs[..k + 1][..k] == rs[..k];
  }

  lemma NodesNext(g: Graph, rs: seq<NodeRow>, k: nat, n: Nodes, qid: string)
    requires k < |rs| && NodesLoad(g, rs[..k])
    ensures NodesLoad(g, rs[..k + 1]) <==> NodeLoads(g, rs[k])
    ensures !NodeLoads(g, rs[k]) ==> !NodesLoad(g, rs)
    ensures NodeLoads(g, rs[k]) ==>
      AddNodes(n, g, rs[..k + 1], qid) == AddNode(AddNodes(n, g, rs[..k], qid), g, rs[k], qid)
  {
    assert rs[..k + 1][..k] == rs[..k];
  }

  lemma NextHop(g: Graph, qid: string, p: Path, i: nat)
    requires HopsLoad(g, p, i) && i < Hops(p) && i < |p.edges| && i < |p.directions|
    ensures var n1, n2, e := LastPart(p.nodes[i]), LastPart(p.nodes[i + 1]), LastPart(p.edges[i]);
            if HopLoads(g, n1, n2, e) then
              HopsLoad(g, p, i + 1) && PathRows(g, qid, p, i + 1) == PathRows(g, qid, p, i) + HopRows(g, qid, n1, n2, e)
            else
              !HopsLoad(g, p, Hops(p))
  {
  }

  lemma PathFails(g: Graph, paths: seq<Path>, k: nat)
    requires k < |paths| && !HopsLoad(g, paths[k], Hops(paths[k]))
    ensures !PathsLoad(g, paths)
  {
  }

  lemma NextPath(g: Graph, qid: string, paths: seq<Path>, k: nat, n: Nodes)
    requires k < |paths| && PathsLoad(g, paths[..k]) && HopsLoad(g, paths[k], Hops(paths[k]))
    ensures PathsLoad(g, paths[..k + 1])
    ensures AllRows(g, qid, paths[..k + 1]) == AllRows(g, qid, paths[..k]) + PathRows(g, qid, paths[k], Hops(paths[k]))
    ensures AddPaths(n, g, qid, paths[..k + 1])
         == AddPath(AddPaths(n, g, qid, paths[..k]), g, qid, paths[k], Hops(paths[k]))
  {
    var more := paths[..k + 1];
    assert more[..k] == paths[..k];
    forall j | 0 <= j < |more| ensures HopsLoad(g, more[j], Hops(more[j])) {
      if j < k { assert more[j] == paths[..k][j]; }
    }
  }

  // ----- The loader -----

  class Tables {
    var subject: seq<SubjectRow>
    var file: seq<FileRow>
    var netflow: seq<NetflowRow>
    var subgraph: seq<SubgraphRow>

    ghost function Stored(): Nodes
      reads this
    {
      Nodes(subject, file, netflow)
    }

    ghost predicate Valid()
      reads this
    {
      Sound(Stored(), subgraph)
    }

    method InsertSubject(row: SubjectRow)
      modifies `subject
      ensures subject == PutSubject(old(subject), row)
    {
      var k := 0;
      while k < |subject| && subject[k].uuid != row.uuid
        invariant 0 <= k <= |subject|
        invariant forall j :: 0 <= j < k ==> subject[j].uuid != row.uuid
      {
        k := k + 1;
      }
      if k == |subject| { subject := subject + [row]; }
    }

    method InsertFile(row: FileRow)
      modifies `file
      ensures file == PutFile(old(file), row)
    {
      var k := 0;
      while k < |file| && !(file[k].uuid == row.uuid && file[k].queryId == row.queryId)
        invariant 0 <= k <= |file|
        invariant forall j :: 0 <= j < k ==> file[j].uuid != row.uuid || file[j].queryId != row.queryId
      {
        k := k + 1;
      }
      if k == |file| { file := file + [row]; }
    }

    method InsertNetflow(row: NetflowRow)
      modifies `netflow
      ensures netflow == PutNetflow(old(netflow), row)
    {
      var k := 0;
      while k < |netflow| && !(netflow[k].uuid == row.uuid && netflow[k].queryId == row.queryId)
        invariant 0 <= k <= |netflow|
        invariant forall j :: 0 <= j < k ==> netflow[j].uuid != row.uuid || netflow[j].queryId != row.queryId
      {
        k := k + 1;
      }
      if k == |netflow| { netflow := netflow + [row]; }
    }

    /** `insert_node`. Also when it fails, rows have only been added soundly. */
    method InsertNode(g: Graph, r: NodeRow, qid: string) returns (ok: bool)
      requires Valid()
      modifies `subject, `file, `netflow
      ensures ok <==> NodeLoads(g, r)
      ensures ok ==> Stored() == AddNode(old(Stored()), g, r, qid)
      ensures Valid() && Grows(old(Stored()), Stored())
    {
      var parts := Split(r.uuid, '-');
      if |parts| < 2 { return false; }
      var u := parts[1];
      if r.nodeType == "SUBJECT" {
        ok := InsertProcess(g, r, u);
      } else {
        ok := true;
        if r.nodeType == "FILE" {
          InsertFile(FileRow(u, r.filename, qid));
        } else if r.nodeType == "NETFLOW" {
          InsertNetflow(NetflowRow(u, r.localIp, r.localPort, r.remoteIp, r.remotePort, qid));
        }
        AddNodeLaws(old(Stored()), g, r, qid);
        GrowsKeepsSound(old(Stored()), Stored(), subgraph);
      }
    }

    /** The SUBJECT branch: one conditional insertion per executed file, so the
        first decides; a process without one is inserted with an empty path. */
    method InsertProcess(g: Graph, r: NodeRow, u: string) returns (ok: bool)
      requires Valid() && r.nodeType == "SUBJECT" && |Split(r.uuid, '-')| >= 2 && u == Split(r.uuid, '-')[1]
      modifies `subject
      ensures ok <==> NodeLoads(g, r)
      ensures ok ==> subject == PutSubject(old(subject), ProcessRow(g, r))
      ensures Valid() && Grows(old(Stored()), Stored())
    {
      var results := g.Executed(r.uuid);
      if |results| == 0 {
        ok := true;
        InsertSubject(SubjectRow(u, "", r.cid, ""));
        PutKeepsSound(old(Stored()), subgraph, ProcessRow(g, r));
      } else {
        ok := InsertExecuted(r, u, results);
        if subject != old(subject) { PutKeepsSound(old(Stored()), subgraph, ExecutedRow(r, u, results[0])); }
      }
    }

    /** The loop over the executed files; an odd principal ends it early. */
    method InsertExecuted(r: NodeRow, u: string, results: seq<ExecRow>) returns (ok: bool)
      requires results != []
      modifies `subject
      ensures ok <==> forall j :: 0 <= j < |results| ==> StripHost(results[j].principal).Ok?
      ensures subject == (if StripHost(results[0].principal).Ok? then PutSubject(old(subject), ExecutedRow(r, u, results[0]))
                          else old(subject))
    {
      for k := 0 to |results|
        invariant forall j :: 0 <= j < k ==> StripHost(results[j].principal).Ok?
        invariant subject == if k == 0 then old(subject) else PutSubject(old(subject), ExecutedRow(r, u, results[0]))
      {
        ok := InsertOneExecuted(r, u, results[k]);
        if !ok { return; }
        PutAgain(old(subject), ExecutedRow(r, u, results[0]), ExecutedRow(r, u, results[k]));
      }
      ok := true;
    }

    method InsertOneExecuted(r: NodeRow, u: string, e: ExecRow) returns (ok: bool)
      modifies `subject
      ensures ok <==> StripHost(e.principal).Ok?
      ensures subject == if ok then PutSubject(old(subject), ExecutedRow(r, u, e)) else old(subject)
    {
      var exeName := ExecutableName(e.name);
      match StripHost(e.principal) {
        case Ok(principal) =>
          InsertSubject(SubjectRow(u, exeName, r.cid, Formatted(principal)));
          ok := true;
        case _ => ok := false;
      }
    }

    method ExecutableName(name: string) returns (exeName: string)
      ensures exeName == Basename(name)
    {
      var slash := RFindSlash(name);
      exeName := if slash == -1 then name else name[slash + 1..];
      RFindIsBasename(name);
    }

    /** The loop over a node's rows: remember their uuids by type, insert them. */
    method VisitNodes(g: Graph, rs: seq<NodeRow>, qid: string,
                      subject0: Option<string>, file0: Option<string>, netflow0: Option<string>)
      returns (ok: bool, subjectUuid: Option<string>, fileUuid: Option<string>, netflowUuid: Option<string>)
      requires Valid()
      modifies `subject, `file, `netflow
      ensures ok <==> NodesLoad(g, rs)
      ensures ok ==> Stored() == AddNodes(old(Stored()), g, rs, qid)
      ensures ok ==> subjectUuid == Latest(subject0, rs, "SUBJECT")
      ensures ok ==> fileUuid == Latest(file0, rs, "FILE")
      ensures ok ==> netflowUuid == Latest(netflow0, rs, "NETFLOW")
      ensures Valid() && Grows(old(Stored()), Stored())
    {
      subjectUuid, fileUuid, netflowUuid := subject0, file0, netflow0;
      for k := 0 to |rs|
        invariant Valid() && Grows(old(Stored()), Stored())
        invariant NodesLoad(g, rs[..k]) && Stored() == AddNodes(old(Stored()), g, rs[..k], qid)
        invariant subjectUuid == Latest(subject0, rs[..k], "SUBJECT")
        invariant fileUuid == Latest(file0, rs[..k], "FILE")
        invariant netflowUuid == Latest(netflow0, rs[..k], "NETFLOW")
      {
        var r := rs[k];
        NodesNext(g, rs, k, old(Stored()), qid);
        LatestNext(subject0, rs, k, "SUBJECT");
        LatestNext(file0, rs, k, "FILE");
        LatestNext(netflow0, rs, k, "NETFLOW");
        if r.nodeType == "SUBJECT" {
          subjectUuid := Some(r.uuid);
        } else if r.nodeType == "FILE" {
          fileUuid := Some(r.uuid);
        } else if r.nodeType == "NETFLOW" {
          netflowUuid := Some(r.uuid);
        }
        ghost var before := Stored();
        ok := InsertNode(g, r, qid);
        GrowsTransitive(old(Stored()), before, Stored());
        if !ok { return; }
      }
      assert rs[..|rs|] == rs;
      ok := true;
    }

    /** One hop of a path. */
    method LoadHop(g: Graph, qid: string, n1: string, n2: string, e: string) returns (ok: bool)
      requires Valid()
      modifies this
      ensures ok <==> HopLoads(g, n1, n2, e)
      ensures subgraph == if ok then old(subgraph) + HopRows(g, qid, n1, n2, e) else old(subgraph)
      ensures ok ==> Stored() == AddHop(old(Stored()), g, qid, n1, n2, e)
      ensures Valid() && Grows(old(Stored()), Stored())
    {
      if e !in g.edges { return false; }
      var edge := g.edges[e];
      if !Relevant(edge.eventType) { return true; }
      var s, f, n: Option<string>;
      ok, s, f, n := VisitNodes(g, g.NodeMeta(n1), qid, None, None, None);
      if !ok { return; }
      ghost var middle := Stored();
      ok, s, f, n := VisitNodes(g, g.NodeMeta(n2), qid, s, f, n);
      GrowsTransitive(old(Stored()), middle, Stored());
      if !ok { return; }
      match StripHost(edge.uuid) {
        case Ok(_) =>
        case _ => return false;
      }
      subgraph := subgraph + [SubgraphRow(qid, Stripped(s), edge.eventType, Stripped(edge.uuid), edge.size, edge.ts,
                                          Stripped(f), Stripped(n))];
      HopKeepsSound(old(Stored()), old(subgraph), g, qid, n1, n2, e);
    }

    method LoadPath(g: Graph, qid: string, p: Path) returns (ok: bool)
      requires Valid()
      modifies this
      ensures ok <==> HopsLoad(g, p, Hops(p))
      ensures ok ==> subgraph == old(subgraph) + PathRows(g, qid, p, Hops(p))
      ensures ok ==> Stored() == AddPath(old(Stored()), g, qid, p, Hops(p))
      ensures Valid() && Grows(old(Stored()), Stored()) && old(subgraph) <= subgraph
    {
      for i := 0 to Hops(p)
        invariant HopsLoad(g, p, i)
        invariant subgraph == old(subgraph) + PathRows(g, qid, p, i)
        invariant Stored() == AddPath(old(Stored()), g, qid, p, i)
        invariant Valid() && Grows(old(Stored()), Stored())
      {
        if i >= |p.directions| || i >= |p.edges| { return false; }
        ghost var rows, before := PathRows(g, qid, p, i), Stored();
        ok := LoadHop(g, qid, LastPart(p.nodes[i]), LastPart(p.nodes[i + 1]), LastPart(p.edges[i]));
        GrowsTransitive(old(Stored()), before, Stored());
        NextHop(g, qid, p, i);
        if !ok { return; }
        ConcatAssociates(old(subgraph), rows, HopRows(g, qid, LastPart(p.nodes[i]), LastPart(p.nodes[i + 1]), LastPart(p.edges[i])));
      }
      ok := true;
    }

    /** `insert_paths`: every hop of every path, in order. It succeeds exactly when
        every identifier splits and every list is long enough; then the tables are
        those of AddPaths and AllRows. Whether or not it succeeds, the tables stay
        sound and no row is lost or changed. */
    method InsertPaths(g: Graph, qid: string, paths: seq<Path>) returns (ok: bool)
      requires Valid()
      modifies this
      ensures ok <==> PathsLoad(g, paths)
      ensures ok ==> subgraph == old(subgraph) + AllRows(g, qid, paths)
      ensures ok ==> Stored() == AddPaths(old(Stored()), g, qid, paths)
      ensures Valid() && Grows(old(Stored()), Stored()) && old(subgraph) <= subgraph
    {
      for k := 0 to |paths|
        invariant PathsLoad(g, paths[..k])
        invariant subgraph == old(subgraph) + AllRows(g, qid, paths[..k])
        invariant Stored() == AddPaths(old(Stored()), g, qid, paths[..k])
        invariant Valid() && Grows(old(Stored()), Stored())
      {
        ghost var rows, before, sub := AllRows(g, qid, paths[..k]), Stored(), subgraph;
        ok := LoadPath(g, qid, paths[k]);
        GrowsTransitive(old(Stored()), before, Stored());
        if !ok {
          PathFails(g, paths, k);
          assert old(subgraph) <= sub <= subgraph;
          return;
        }
        ConcatAssociates(old(subgraph), rows, PathRows(g, qid, paths[k], Hops(paths[k])));
        NextPath(g, qid, paths, k, old(Stored()));
      }
      assert paths[..|paths|] == paths;
      ok := true;
    }
  }
}
