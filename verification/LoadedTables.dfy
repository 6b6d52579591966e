/** What the tables hold after loading: the keys of the node tables, and which
    references of the new subgraph rows have their row. */
module LoadedTables {
  import opened Basics
  import opened Text
  import opened Uuid
  import opened Loader

  datatype Hop = Hop(n1: string, n2: string, e: string)

  /** The metadata rows of the two nodes of a hop. */
  function MetaOf(g: Graph, h: Hop): seq<NodeRow> { g.NodeMeta(h.n1) + g.NodeMeta(h.n2) }

  function HopAt(p: Path, i: nat): Hop
    requires i + 1 < |p.nodes| && i < |p.edges|
  {
    Hop(LastPart(p.nodes[i]), LastPart(p.nodes[i + 1]), LastPart(p.edges[i]))
  }

  /** The hop, if its edge is one the loader is interested in. */
  ghost function IfRelevant(g: Graph, h: Hop): seq<Hop>
    requires h.e in g.edges
  {
    if Relevant(g.edges[h.e].eventType) then [h] else []
  }

  /** The relevant hops of a path, in order. */
  ghost function PathHops(g: Graph, p: Path, hops: nat): seq<Hop>
    requires HopsLoad(g, p, hops)
  {
    if hops == 0 then []
    else
      var h := HopAt(p, hops - 1);
      assert HopLoads(g, h.n1, h.n2, h.e);
      PathHops(g, p, hops - 1) + IfRelevant(g, h)
  }

  ghost function Traversed(g: Graph, paths: seq<Path>): seq<Hop>
    requires PathsLoad(g, paths)
  {
    if paths == [] then []
    else
      var k := |paths| - 1;
      Traversed(g, paths[..k]) + PathHops(g, paths[k], Hops(paths[k]))
  }

  // ----- The rows of the hops -----

  ghost predicate IsHopRow(g: Graph, qid: string, h: Hop, row: SubgraphRow) {
    && HopLoads(g, h.n1, h.n2, h.e) && Relevant(g.edges[h.e].eventType)
    && HopRows(g, qid, h.n1, h.n2, h.e) == [row]
  }

  ghost predicate RowsMatch(g: Graph, qid: string, hs: seq<Hop>, rows: seq<SubgraphRow>) {
    |hs| == |rows| && forall k :: 0 <= k < |rows| ==> IsHopRow(g, qid, hs[k], rows[k])
  }

  lemma MatchConcat(g: Graph, qid: string, hs: seq<Hop>, rows: seq<SubgraphRow>, hs': seq<Hop>, rows': seq<SubgraphRow>)
    requires RowsMatch(g, qid, hs, rows) && RowsMatch(g, qid, hs', rows')
    ensures RowsMatch(g, qid, hs + hs', rows + rows')
  {
    ZipConcat((h: Hop, row: SubgraphRow) => IsHopRow(g, qid, h, row), hs, rows, hs', rows');
  }

  lemma ZipConcat<A, B>(ok: (A, B) -> bool, xs: seq<A>, ys: seq<B>, xs': seq<A>, ys': seq<B>)
    requires |xs| == |ys| && |xs'| == |ys'|
    requires (forall k :: 0 <= k < |ys| ==> ok(xs[k], ys[k])) && (forall k :: 0 <= k < |ys'| ==> ok(xs'[k], ys'[k]))
    ensures forall k :: 0 <= k < |ys + ys'| ==> ok((xs + xs')[k], (ys + ys')[k])
  {
  }

  lemma {:induction false} PathRowsMatch(g: Graph, qid: string, p: Path, hops: nat)
    requires HopsLoad(g, p, hops)
    ensures RowsMatch(g, qid, PathHops(g, p, hops), PathRows(g, qid, p, hops))
  {
    if hops > 0 {
      PathRowsMatch(g, qid, p, hops - 1);
      var h := HopAt(p, hops - 1);
      assert HopLoads(g, h.n1, h.n2, h.e);
      var row := HopRows(g, qid, h.n1, h.n2, h.e);
      assert RowsMatch(g, qid, IfRelevant(g, h), row);
      MatchConcat(g, qid, PathHops(g, p, hops - 1), PathRows(g, qid, p, hops - 1), IfRelevant(g, h), row);
    }
  }

  /** The rows that loading adds are those of the relevant hops, one each, in order. */
  lemma {:induction false} RowsAreHops(g: Graph, qid: string, paths: seq<Path>)
    requires PathsLoad(g, paths)
    ensures RowsMatch(g, qid, Traversed(g, paths), AllRows(g, qid, paths))
  {
    if paths != [] {
      var k := |paths| - 1;
      RowsAreHops(g, qid, paths[..k]);
      PathRowsMatch(g, qid, paths[k], Hops(paths[k]));
      MatchConcat(g, qid, Traversed(g, paths[..k]), AllRows(g, qid, paths[..k]),
                  PathHops(g, paths[k], Hops(paths[k])), PathRows(g, qid, paths[k], Hops(paths[k])));
    }
  }

  // ----- The keys of the node tables -----

  predicate IsTable(nodeType: string) { nodeType in ["SUBJECT", "FILE", "NETFLOW"] }

  /** The table of the node type has a row for u, the two keyed by query with qid. */
  ghost predicate Has(n: Nodes, nodeType: string, u: string, qid: string) {
    if nodeType == "SUBJECT" then HasSubject(n.subject, u)
    else if nodeType == "FILE" then HasFile(n.file, u, qid)
    else HasNetflow(n.netflow, u, qid)
  }

  /** Some row of the type has the identifier u behind its host. */
  ghost predicate Named(rs: seq<NodeRow>, nodeType: string, u: string) {
    exists k :: 0 <= k < |rs| && IsNamed(rs[k], nodeType, u)
  }

  predicate IsNamed(r: NodeRow, nodeType: string, u: string) {
    r.nodeType == nodeType && |Split(r.uuid, '-')| >= 2 && Split(r.uuid, '-')[1] == u
  }

  ghost predicate Seen(g: Graph, hs: seq<Hop>, nodeType: string, u: string) {
    exists k :: 0 <= k < |hs| && Named(MetaOf(g, hs[k]), nodeType, u)
  }

  lemma NamedConcat(a: seq<NodeRow>, b: seq<NodeRow>, nodeType: string, u: string)
    ensures Named(a + b, nodeType, u) <==> Named(a, nodeType, u) || Named(b, nodeType, u)
  {
    ExistsConcat((r: NodeRow) => IsNamed(r, nodeType, u), a, b);
  }

  lemma SeenConcat(g: Graph, a: seq<Hop>, b: seq<Hop>, nodeType: string, u: string)
    ensures Seen(g, a + b, nodeType, u) <==> Seen(g, a, nodeType, u) || Seen(g, b, nodeType, u)
  {
    ExistsConcat((h: Hop) => Named(MetaOf(g, h), nodeType, u), a, b);
  }

  lemma PutSubjectKeys(t: seq<SubjectRow>, row: SubjectRow, u: string)
    ensures HasSubject(PutSubject(t, row), u) <==> HasSubject(t, u) || u == row.uuid
  {
    PutSubjectLaws(t, row);
  }

  lemma PutFileKeys(t: seq<FileRow>, row: FileRow, u: string)
    ensures HasFile(PutFile(t, row), u, row.queryId) <==> HasFile(t, u, row.queryId) || u == row.uuid
  {
    PutFileLaws(t, row);
  }

  lemma PutNetflowKeys(t: seq<NetflowRow>, row: NetflowRow, u: string)
    ensures HasNetflow(PutNetflow(t, row), u, row.queryId) <==> HasNetflow(t, u, row.queryId) || u == row.uuid
  {
    PutNetflowLaws(t, row);
  }

  lemma KeysAfterNode(n: Nodes, g: Graph, r: NodeRow, qid: string, nodeType: string, u: string)
    requires NodeLoads(g, r) && IsTable(nodeType)
    ensures Has(AddNode(n, g, r, qid), nodeType, u, qid) <==> Has(n, nodeType, u, qid) || IsNamed(r, nodeType, u)
  {
    var v := Split(r.uuid, '-')[1];
    if r.nodeType == "SUBJECT" {
      PutSubjectKeys(n.subject, ProcessRow(g, r), u);
    } else if r.nodeType == "FILE" {
      PutFileKeys(n.file, FileRow(v, r.filename, qid), u);
    } else if r.nodeType == "NETFLOW" {
      PutNetflowKeys(n.netflow, NetflowRow(v, r.localIp, r.localPort, r.remoteIp, r.remotePort, qid), u);
    }
  }

  lemma {:induction false} KeysAfterNodes(n: Nodes, g: Graph, rs: seq<NodeRow>, qid: string, nodeType: string, u: string)
    requires NodesLoad(g, rs) && IsTable(nodeType)
    ensures Has(AddNodes(n, g, rs, qid), nodeType, u, qid) <==> Has(n, nodeType, u, qid) || Named(rs, nodeType, u)
  {
    if rs != [] {
      var k := |rs| - 1;
      KeysAfterNodes(n, g, rs[..k], qid, nodeType, u);
      KeysAfterNode(AddNodes(n, g, rs[..k], qid), g, rs[k], qid, nodeType, u);
      assert rs[..k] + [rs[k]] == rs;
      NamedConcat(rs[..k], [rs[k]], nodeType, u);
      assert Named([rs[k]], nodeType, u) <==> IsNamed([rs[k]][0], nodeType, u);
    }
  }

  lemma KeysAfterHop(n: Nodes, g: Graph, qid: string, h: Hop, nodeType: string, u: string)
    requires HopLoads(g, h.n1, h.n2, h.e) && IsTable(nodeType)
    ensures Has(AddHop(n, g, qid, h.n1, h.n2, h.e), nodeType, u, qid)
       <==> Has(n, nodeType, u, qid) || Seen(g, IfRelevant(g, h), nodeType, u)
  {
    if Relevant(g.edges[h.e].eventType) {
      KeysAfterNodes(n, g, g.NodeMeta(h.n1), qid, nodeType, u);
      KeysAfterNodes(AddNodes(n, g, g.NodeMeta(h.n1), qid), g, g.NodeMeta(h.n2), qid, nodeType, u);
      NamedConcat(g.NodeMeta(h.n1), g.NodeMeta(h.n2), nodeType, u);
      assert Seen(g, [h], nodeType, u) <==> Named(MetaOf(g, [h][0]), nodeType, u);
    }
  }

  lemma {:induction false} KeysAfterPath(n: Nodes, g: Graph, qid: string, p: Path, hops: nat, nodeType: string, u: string)
    requires HopsLoad(g, p, hops) && IsTable(nodeType)
    ensures Has(AddPath(n, g, qid, p, hops), nodeType, u, qid)
       <==> Has(n, nodeType, u, qid) || Seen(g, PathHops(g, p, hops), nodeType, u)
  {
    if hops > 0 {
      KeysAfterPath(n, g, qid, p, hops - 1, nodeType, u);
      var h := HopAt(p, hops - 1);
      PathStep(n, g, qid, p, hops);
      KeysAfterHop(AddPath(n, g, qid, p, hops - 1), g, qid, h, nodeType, u);
      SeenConcat(g, PathHops(g, p, hops - 1), IfRelevant(g, h), nodeType, u);
    }
  }

  lemma PathStep(n: Nodes, g: Graph, qid: string, p: Path, hops: nat)
    requires hops > 0 && HopsLoad(g, p, hops)
    ensures var h := HopAt(p, hops - 1);
            && HopLoads(g, h.n1, h.n2, h.e)
            && AddPath(n, g, qid, p, hops) == AddHop(AddPath(n, g, qid, p, hops - 1), g, qid, h.n1, h.n2, h.e)
            && PathHops(g, p, hops) == PathHops(g, p, hops - 1) + IfRelevant(g, h)
  {
    var i := hops - 1;
    assert HopLoads(g, LastPart(p.nodes[i]), LastPart(p.nodes[i + 1]), LastPart(p.edges[i]));
  }

  /** The keys of each node table after loading are the old ones and those of the
      nodes of its type on the relevant hops, no others. */
  lemma {:induction false} KeysAfterLoading(n: Nodes, g: Graph, qid: string, paths: seq<Path>, nodeType: string, u: string)
    requires PathsLoad(g, paths) && IsTable(nodeType)
    ensures Has(AddPaths(n, g, qid, paths), nodeType, u, qid)
       <==> Has(n, nodeType, u, qid) || Seen(g, Traversed(g, paths), nodeType, u)
  {
    if paths != [] {
      var k := |paths| - 1;
      KeysAfterLoading(n, g, qid, paths[..k], nodeType, u);
      KeysAfterPath(AddPaths(n, g, qid, paths[..k]), g, qid, paths[k], Hops(paths[k]), nodeType, u);
      SeenConcat(g, Traversed(g, paths[..k]), PathHops(g, paths[k], Hops(paths[k])), nodeType, u);
    }
  }

  // ----- What the rows of the node tables hold -----

  /** The metadata rows of the nodes on the hops, in the order they are met. */
  ghost function RowsSeen(g: Graph, hs: seq<Hop>): seq<NodeRow> {
    Flattened((h: Hop) => MetaOf(g, h), hs)
  }

  lemma RowsSeenConcat(g: Graph, a: seq<Hop>, b: seq<Hop>)
    ensures RowsSeen(g, a + b) == RowsSeen(g, a) + RowsSeen(g, b)
  {
    FlattenedConcat((h: Hop) => MetaOf(g, h), a, b);
  }

  lemma {:induction false} AddNodesConcat(n: Nodes, g: Graph, a: seq<NodeRow>, b: seq<NodeRow>, qid: string)
    requires NodesLoad(g, a) && NodesLoad(g, b)
    ensures NodesLoad(g, a + b) && AddNodes(n, g, a + b, qid) == AddNodes(AddNodes(n, g, a, qid), g, b, qid)
    decreases |b|
  {
    if b == [] {
      assert a + b == a;
    } else {
      var k := |b| - 1;
      AddNodesConcat(n, g, a, b[..k], qid);
      assert (a + b)[..|a + b| - 1] == a + b[..k] && (a + b)[|a + b| - 1] == b[k];
    }
  }

  lemma HopIsNodes(n: Nodes, g: Graph, qid: string, h: Hop)
    requires HopLoads(g, h.n1, h.n2, h.e)
    ensures var rs := RowsSeen(g, IfRelevant(g, h));
            NodesLoad(g, rs) && AddHop(n, g, qid, h.n1, h.n2, h.e) == AddNodes(n, g, rs, qid)
  {
    if Relevant(g.edges[h.e].eventType) {
      AddNodesConcat(n, g, g.NodeMeta(h.n1), g.NodeMeta(h.n2), qid);
      OneHopSeen(g, h);
    }
  }

  lemma OneHopSeen(g: Graph, h: Hop)
    ensures RowsSeen(g, [h]) == MetaOf(g, h)
  {
    FlattenedNext((h: Hop) => MetaOf(g, h), [], h);
    assert [] + [h] == [h];
  }

  lemma {:induction false} PathIsNodes(n: Nodes, g: Graph, qid: string, p: Path, hops: nat)
    requires HopsLoad(g, p, hops)
    ensures var rs := RowsSeen(g, PathHops(g, p, hops));
            NodesLoad(g, rs) && AddPath(n, g, qid, p, hops) == AddNodes(n, g, rs, qid)
  {
    if hops > 0 {
      var h := HopAt(p, hops - 1);
      PathIsNodes(n, g, qid, p, hops - 1);
      PathStep(n, g, qid, p, hops);
      HopIsNodes(AddPath(n, g, qid, p, hops - 1), g, qid, h);
      RowsSeenConcat(g, PathHops(g, p, hops - 1), IfRelevant(g, h));
      AddNodesConcat(n, g, RowsSeen(g, PathHops(g, p, hops - 1)), RowsSeen(g, IfRelevant(g, h)), qid);
    }
  }

  /** Loading the paths is storing the nodes met on their relevant hops, in order. */
  lemma {:induction false} LoadingIsNodes(n: Nodes, g: Graph, qid: string, paths: seq<Path>)
    requires PathsLoad(g, paths)
    ensures var rs := RowsSeen(g, Traversed(g, paths));
            NodesLoad(g, rs) && AddPaths(n, g, qid, paths) == AddNodes(n, g, rs, qid)
  {
    if paths != [] {
      var k := |paths| - 1;
      var before, hops := Traversed(g, paths[..k]), PathHops(g, paths[k], Hops(paths[k]));
      LoadingIsNodes(n, g, qid, paths[..k]);
      PathIsNodes(AddPaths(n, g, qid, paths[..k]), g, qid, paths[k], Hops(paths[k]));
      RowsSeenConcat(g, before, hops);
      AddNodesConcat(n, g, RowsSeen(g, before), RowsSeen(g, hops), qid);
    }
  }

  /** The first of the rows that names u. */
  ghost predicate FirstNamed(rs: seq<NodeRow>, nodeType: string, u: string, k: nat) {
    k < |rs| && IsNamed(rs[k], nodeType, u) && forall j :: 0 <= j < k ==> !IsNamed(rs[j], nodeType, u)
  }

  /** The text is what stands behind the host, an empty value as it is, a missing one
      as None. */
  predicate IsStripped(text: string, value: Option<string>) {
    match value
    case None => text == "None"
    case Some(v) => if v == "" then text == "" else |Split(v, '-')| >= 2 && text == Split(v, '-')[1]
  }

  /** A process is stored with its pid, and with the name of the first file that it
      executed and that file's principal, or without both. */
  ghost predicate IsSubjectOf(g: Graph, r: NodeRow, row: SubjectRow) {
    && IsNamed(r, "SUBJECT", row.uuid) && row.pid == r.cid
    && if r.uuid in g.execs && g.execs[r.uuid] != [] then
         var x := g.execs[r.uuid][0];
         IsLastPart(row.path, x.name) && IsStripped(row.principal, x.principal)
       else row.path == "" && row.principal == ""
  }

  ghost predicate IsFileOf(r: NodeRow, qid: string, row: FileRow) {
    IsNamed(r, "FILE", row.uuid) && row.path == r.filename && row.queryId == qid
  }

  ghost predicate IsNetflowOf(r: NodeRow, qid: string, row: NetflowRow) {
    && IsNamed(r, "NETFLOW", row.uuid) && row.queryId == qid
    && row.localIp == r.localIp && row.localPort == r.localPort
    && row.remoteIp == r.remoteIp && row.remotePort == r.remotePort
  }

  lemma ProcessRowMeaning(g: Graph, r: NodeRow)
    requires NodeLoads(g, r) && r.nodeType == "SUBJECT"
    ensures IsSubjectOf(g, r, ProcessRow(g, r))
  {
    var xs := g.Executed(r.uuid);
    if xs != [] {
      BasenameIsLastPart(xs[0].name);
      assert IsStripped(Formatted(StripHost(xs[0].principal).value), xs[0].principal);
    }
  }

  /** The nodes before the first that names u do not put it into the table. */
  lemma NotYet(n: Nodes, g: Graph, rs: seq<NodeRow>, qid: string, nodeType: string, u: string, k: nat)
    requires NodesLoad(g, rs) && IsTable(nodeType) && FirstNamed(rs, nodeType, u, k) && !Has(n, nodeType, u, qid)
    ensures !Has(AddNodes(n, g, rs[..k], qid), nodeType, u, qid)
  {
    KeysAfterNodes(n, g, rs[..k], qid, nodeType, u);
  }

  lemma {:induction false} NodesGrow(n: Nodes, g: Graph, rs: seq<NodeRow>, qid: string)
    requires NodesLoad(g, rs)
    ensures Grows(n, AddNodes(n, g, rs, qid))
  {
    if rs != [] {
      var k := |rs| - 1;
      NodesGrow(n, g, rs[..k], qid);
      NodeGrows(AddNodes(n, g, rs[..k], qid), g, rs[k], qid);
      GrowsTransitive(n, AddNodes(n, g, rs[..k], qid), AddNodes(n, g, rs, qid));
    }
  }

  lemma NodeGrows(n: Nodes, g: Graph, r: NodeRow, qid: string)
    requires NodeLoads(g, r)
    ensures Grows(n, AddNode(n, g, r, qid))
  {
  }

  /** The tables after the k-th node are a part of the tables in the end. */
  lemma AfterNode(n: Nodes, g: Graph, rs: seq<NodeRow>, qid: string, k: nat)
    requires NodesLoad(g, rs) && k < |rs|
    ensures NodeLoads(g, rs[k]) && NodesLoad(g, rs[..k])
    ensures Grows(AddNode(AddNodes(n, g, rs[..k], qid), g, rs[k], qid), AddNodes(n, g, rs, qid))
  {
    var part, rest := rs[..k + 1], rs[k + 1..];
    assert part + rest == rs && part[..k] == rs[..k] && part[k] == rs[k];
    AddNodesConcat(n, g, part, rest, qid);
    NodesGrow(AddNodes(n, g, part, qid), g, rest, qid);
  }

  /** After loading, a process that was not stored before is stored as the first node
      row that names it says. */
  lemma StoredSubject(n: Nodes, g: Graph, qid: string, paths: seq<Path>, u: string, k: nat) returns (i: nat)
    requires PathsLoad(g, paths) && FirstNamed(RowsSeen(g, Traversed(g, paths)), "SUBJECT", u, k)
    requires !HasSubject(n.subject, u)
    ensures var subject := AddPaths(n, g, qid, paths).subject;
            i < |subject| && subject[i].uuid == u && IsSubjectOf(g, RowsSeen(g, Traversed(g, paths))[k], subject[i])
  {
    var rs := RowsSeen(g, Traversed(g, paths));
    LoadingIsNodes(n, g, qid, paths);
    NotYet(n, g, rs, qid, "SUBJECT", u, k);
    AfterNode(n, g, rs, qid, k);
    ProcessRowMeaning(g, rs[k]);
    i := |AddNodes(n, g, rs[..k], qid).subject|;
  }

  /** The same for a file and its query. */
  lemma StoredFile(n: Nodes, g: Graph, qid: string, paths: seq<Path>, u: string, k: nat) returns (i: nat)
    requires PathsLoad(g, paths) && FirstNamed(RowsSeen(g, Traversed(g, paths)), "FILE", u, k)
    requires !HasFile(n.file, u, qid)
    ensures var file := AddPaths(n, g, qid, paths).file;
            i < |file| && file[i].uuid == u && IsFileOf(RowsSeen(g, Traversed(g, paths))[k], qid, file[i])
  {
    var rs := RowsSeen(g, Traversed(g, paths));
    LoadingIsNodes(n, g, qid, paths);
    NotYet(n, g, rs, qid, "FILE", u, k);
    AfterNode(n, g, rs, qid, k);
    i := |AddNodes(n, g, rs[..k], qid).file|;
  }

  /** The same for a netflow and its query. */
  lemma StoredNetflow(n: Nodes, g: Graph, qid: string, paths: seq<Path>, u: string, k: nat) returns (i: nat)
    requires PathsLoad(g, paths) && FirstNamed(RowsSeen(g, Traversed(g, paths)), "NETFLOW", u, k)
    requires !HasNetflow(n.netflow, u, qid)
    ensures var netflow := AddPaths(n, g, qid, paths).netflow;
            i < |netflow| && netflow[i].uuid == u && IsNetflowOf(RowsSeen(g, Traversed(g, paths))[k], qid, netflow[i])
  {
    var rs := RowsSeen(g, Traversed(g, paths));
    LoadingIsNodes(n, g, qid, paths);
    NotYet(n, g, rs, qid, "NETFLOW", u, k);
    AfterNode(n, g, rs, qid, k);
    i := |AddNodes(n, g, rs[..k], qid).netflow|;
  }

  // ----- What the subgraph rows hold -----

  /** The reference is to the last row of the type, or None without one. */
  ghost predicate IsReference(text: string, rs: seq<NodeRow>, nodeType: string) {
    if HasType(rs, nodeType) then
      exists k :: 0 <= k < |rs| && IsNamed(rs[k], nodeType, text) && forall j :: k < j < |rs| ==> rs[j].nodeType != nodeType
    else text == "None"
  }

  /** The columns of the row of a hop. */
  ghost predicate IsRowOf(g: Graph, qid: string, h: Hop, row: SubgraphRow) {
    && h.e in g.edges && row.queryId == qid
    && row.eventType == g.edges[h.e].eventType && row.eventSize == g.edges[h.e].size && row.eventTs == g.edges[h.e].ts
    && IsStripped(row.eventUuid, g.edges[h.e].uuid)
    && IsReference(row.subjectUuid, MetaOf(g, h), "SUBJECT")
    && IsReference(row.fileUuid, MetaOf(g, h), "FILE")
    && IsReference(row.netflowUuid, MetaOf(g, h), "NETFLOW")
  }

  lemma {:induction false} LastIsReference(g: Graph, rs: seq<NodeRow>, nodeType: string)
    requires NodesLoad(g, rs)
    ensures IsReference(Stripped(LastOfType(rs, nodeType)), rs, nodeType)
  {
    if rs != [] {
      var n := |rs| - 1;
      if rs[n].nodeType == nodeType {
        assert IsNamed(rs[n], nodeType, Stripped(Some(rs[n].uuid)));
      } else {
        LastIsReference(g, rs[..n], nodeType);
        ReferenceExtends(Stripped(LastOfType(rs[..n], nodeType)), rs, nodeType);
      }
    }
  }

  lemma ReferenceExtends(text: string, rs: seq<NodeRow>, nodeType: string)
    requires rs != [] && rs[|rs| - 1].nodeType != nodeType && IsReference(text, rs[..|rs| - 1], nodeType)
    ensures IsReference(text, rs, nodeType)
  {
    var part := rs[..|rs| - 1];
    assert rs == part + [rs[|rs| - 1]];
    if HasType(part, nodeType) {
      var k :| 0 <= k < |part| && IsNamed(part[k], nodeType, text) && forall j :: k < j < |part| ==> part[j].nodeType != nodeType;
      assert IsNamed(rs[k], nodeType, text) && rs[k].nodeType == nodeType;
    } else {
      forall k | 0 <= k < |rs| ensures rs[k].nodeType != nodeType {
        if k < |part| { assert part[k].nodeType != nodeType; }
      }
    }
  }

  /** The k-th new row has the columns of the k-th relevant hop. */
  lemma RowColumns(g: Graph, qid: string, paths: seq<Path>, k: nat)
    requires PathsLoad(g, paths) && k < |AllRows(g, qid, paths)|
    ensures k < |Traversed(g, paths)| && IsRowOf(g, qid, Traversed(g, paths)[k], AllRows(g, qid, paths)[k])
  {
    RowsAreHops(g, qid, paths);
    assert IsHopRow(g, qid, Traversed(g, paths)[k], AllRows(g, qid, paths)[k]);
    HopColumns(g, qid, Traversed(g, paths)[k], AllRows(g, qid, paths)[k]);
  }

  /** The rows of the i-th hop of a path. */
  ghost function RowsOfHop(g: Graph, qid: string, p: Path, i: nat): seq<SubgraphRow>
    requires i + 1 < |p.nodes| && i < |p.edges| && LastPart(p.edges[i]) in g.edges
  {
    HopRows(g, qid, LastPart(p.nodes[i]), LastPart(p.nodes[i + 1]), LastPart(p.edges[i]))
  }

  lemma LastRows(g: Graph, qid: string, p: Path, hops: nat)
    requires hops > 0 && HopsLoad(g, p, hops)
    ensures LastPart(p.edges[hops - 1]) in g.edges
    ensures PathRows(g, qid, p, hops) == PathRows(g, qid, p, hops - 1) + RowsOfHop(g, qid, p, hops - 1)
    ensures |PathRows(g, qid, p, hops - 1)| == DataEdges(g, p, hops - 1)
    ensures |RowsOfHop(g, qid, p, hops - 1)| == if MovesData(g, p, hops - 1) then 1 else 0
  {
    var i := hops - 1;
    assert HopLoads(g, LastPart(p.nodes[i]), LastPart(p.nodes[i + 1]), LastPart(p.edges[i]));
    PathRowCount(g, qid, p, i);
    HopRowCount(g, qid, p, i, LastPart(p.nodes[i]), LastPart(p.nodes[i + 1]));
  }

  lemma LongerRest<T>(all: seq<T>, before: seq<T>, last: seq<T>, x: seq<T>, rest: seq<T>)
    requires all == before + last && before == x + rest
    ensures all == x + (rest + last)
  {
  }

  lemma NoRest<T>(x: seq<T>)
    ensures x == x + []
  {
  }

  lemma FewerHopsLoad(g: Graph, p: Path, hops: nat, more: nat)
    requires hops <= more && HopsLoad(g, p, more)
    ensures HopsLoad(g, p, hops)
  {
  }

  lemma {:induction false} PathRowsPrefix(g: Graph, qid: string, p: Path, hops: nat, more: nat) returns (rest: seq<SubgraphRow>)
    requires hops <= more && HopsLoad(g, p, more) && HopsLoad(g, p, hops)
    ensures PathRows(g, qid, p, more) == PathRows(g, qid, p, hops) + rest
    decreases more
  {
    if hops == more {
      rest := [];
      NoRest(PathRows(g, qid, p, hops));
    } else {
      FewerHopsLoad(g, p, more - 1, more);
      var start := PathRowsPrefix(g, qid, p, hops, more - 1);
      LastRows(g, qid, p, more);
      var last := RowsOfHop(g, qid, p, more - 1);
      LongerRest(PathRows(g, qid, p, more), PathRows(g, qid, p, more - 1), last, PathRows(g, qid, p, hops), start);
      rest := start + last;
    }
  }

  /** The rows of a hop stand right behind those of the hops before it. */
  lemma PathRowsAt(g: Graph, qid: string, p: Path, hops: nat, i: nat) returns (rest: seq<SubgraphRow>)
    requires HopsLoad(g, p, hops) && i < hops
    ensures HopsLoad(g, p, i) && LastPart(p.edges[i]) in g.edges
    ensures PathRows(g, qid, p, hops) == PathRows(g, qid, p, i) + RowsOfHop(g, qid, p, i) + rest
    ensures |PathRows(g, qid, p, i)| == DataEdges(g, p, i)
  {
    FewerHopsLoad(g, p, i + 1, hops);
    rest := PathRowsPrefix(g, qid, p, i + 1, hops);
    LastRows(g, qid, p, i + 1);
  }

  lemma LastPathRows(g: Graph, qid: string, paths: seq<Path>)
    requires paths != [] && PathsLoad(g, paths)
    ensures var n := |paths| - 1;
            && HopsLoad(g, paths[n], Hops(paths[n])) && PathsLoad(g, paths[..n])
            && AllRows(g, qid, paths) == AllRows(g, qid, paths[..n]) + PathRows(g, qid, paths[n], Hops(paths[n]))
            && |AllRows(g, qid, paths[..n])| == AllDataEdges(g, paths[..n])
  {
    RowCount(g, qid, paths[..|paths| - 1]);
  }

  /** The rows of a path stand right behind those of the paths before it. */
  lemma NextPathRows(g: Graph, qid: string, paths: seq<Path>, j: nat)
    requires PathsLoad(g, paths) && j < |paths|
    ensures PathsLoad(g, paths[..j]) && PathsLoad(g, paths[..j + 1]) && HopsLoad(g, paths[j], Hops(paths[j]))
    ensures AllRows(g, qid, paths[..j]) + PathRows(g, qid, paths[j], Hops(paths[j])) == AllRows(g, qid, paths[..j + 1])
    ensures |AllRows(g, qid, paths[..j])| == AllDataEdges(g, paths[..j])
  {
    var part := paths[..j + 1];
    assert PathsLoad(g, part);
    LastPathRows(g, qid, part);
    assert part[..j] == paths[..j];
  }

  lemma PrefixLoads(g: Graph, paths: seq<Path>, m: nat)
    requires PathsLoad(g, paths) && m <= |paths|
    ensures PathsLoad(g, paths[..m])
  {
  }

  lemma {:induction false} AllRowsPrefix(g: Graph, qid: string, paths: seq<Path>, j: nat) returns (rest: seq<SubgraphRow>)
    requires PathsLoad(g, paths) && j <= |paths| && PathsLoad(g, paths[..j])
    ensures AllRows(g, qid, paths) == AllRows(g, qid, paths[..j]) + rest
    decreases |paths|
  {
    var n := |paths| - 1;
    if j > n {
      assert paths[..j] == paths;
      rest := [];
      NoRest(AllRows(g, qid, paths));
    } else {
      PrefixLoads(g, paths, n);
      assert paths[..n][..j] == paths[..j];
      var start := AllRowsPrefix(g, qid, paths[..n], j);
      var last := PathRows(g, qid, paths[n], Hops(paths[n]));
      LongerRest(AllRows(g, qid, paths), AllRows(g, qid, paths[..n]), last, AllRows(g, qid, paths[..j]), start);
      rest := start + last;
    }
  }

  lemma PathInAllRows(g: Graph, qid: string, paths: seq<Path>, j: nat) returns (rest: seq<SubgraphRow>)
    requires PathsLoad(g, paths) && j < |paths|
    ensures PathsLoad(g, paths[..j]) && HopsLoad(g, paths[j], Hops(paths[j]))
    ensures AllRows(g, qid, paths) == AllRows(g, qid, paths[..j]) + PathRows(g, qid, paths[j], Hops(paths[j])) + rest
    ensures |AllRows(g, qid, paths[..j])| == AllDataEdges(g, paths[..j])
  {
    NextPathRows(g, qid, paths, j);
    rest := AllRowsPrefix(g, qid, paths, j + 1);
  }

  lemma BetweenAt<T>(all: seq<T>, x: seq<T>, y: seq<T>, rest: seq<T>, k: nat)
    requires all == x + y + rest && k < |y|
    ensures |x| + k < |all| && all[|x| + k] == y[k]
  {
  }

  lemma PathRowAt(g: Graph, qid: string, p: Path, hops: nat, i: nat, row: SubgraphRow)
    requires HopsLoad(g, p, hops) && i < hops && LastPart(p.edges[i]) in g.edges && RowsOfHop(g, qid, p, i) == [row]
    ensures DataEdges(g, p, i) < |PathRows(g, qid, p, hops)| && PathRows(g, qid, p, hops)[DataEdges(g, p, i)] == row
  {
    var rest := PathRowsAt(g, qid, p, hops, i);
    BetweenAt(PathRows(g, qid, p, hops), PathRows(g, qid, p, i), [row], rest, 0);
  }

  lemma RowOfPathAt(g: Graph, qid: string, paths: seq<Path>, j: nat, k: nat)
    requires PathsLoad(g, paths) && j < |paths| && HopsLoad(g, paths[j], Hops(paths[j]))
    requires k < |PathRows(g, qid, paths[j], Hops(paths[j]))|
    ensures AllDataEdges(g, paths[..j]) + k < |AllRows(g, qid, paths)|
    ensures AllRows(g, qid, paths)[AllDataEdges(g, paths[..j]) + k] == PathRows(g, qid, paths[j], Hops(paths[j]))[k]
  {
    var rest := PathInAllRows(g, qid, paths, j);
    BetweenAt(AllRows(g, qid, paths), AllRows(g, qid, paths[..j]), PathRows(g, qid, paths[j], Hops(paths[j])), rest, k);
  }

  lemma PathLoads(g: Graph, paths: seq<Path>, j: nat)
    requires PathsLoad(g, paths) && j < |paths|
    ensures HopsLoad(g, paths[j], Hops(paths[j]))
  {
  }

  /** A data-moving hop has one row, with the columns of that hop. */
  lemma OneHopRow(g: Graph, qid: string, p: Path, i: nat) returns (row: SubgraphRow)
    requires i + 1 < |p.nodes| && MovesData(g, p, i)
    requires HopLoads(g, LastPart(p.nodes[i]), LastPart(p.nodes[i + 1]), LastPart(p.edges[i]))
    ensures RowsOfHop(g, qid, p, i) == [row]
    ensures IsRowOf(g, qid, Hop(LastPart(p.nodes[i]), LastPart(p.nodes[i + 1]), LastPart(p.edges[i])), row)
  {
    var h := Hop(LastPart(p.nodes[i]), LastPart(p.nodes[i + 1]), LastPart(p.edges[i]));
    RelevantIff(g.edges[h.e].eventType);
    row := RowsOfHop(g, qid, p, i)[0];
    HopColumns(g, qid, h, row);
  }

  lemma RowInPath(g: Graph, qid: string, p: Path, i: nat)
    requires HopsLoad(g, p, Hops(p)) && i + 1 < |p.nodes| && MovesData(g, p, i)
    ensures DataEdges(g, p, i) < |PathRows(g, qid, p, Hops(p))|
    ensures IsRowOf(g, qid, Hop(LastPart(p.nodes[i]), LastPart(p.nodes[i + 1]), LastPart(p.edges[i])),
                    PathRows(g, qid, p, Hops(p))[DataEdges(g, p, i)])
  {
    var row := OneHopRow(g, qid, p, i);
    PathRowAt(g, qid, p, Hops(p), i, row);
  }

  /** Where the row of a data-moving edge of the paths stands, and that it has the
      columns of that edge and of the nodes on both sides of it. */
  lemma RowAt(g: Graph, qid: string, paths: seq<Path>, j: nat, i: nat)
    requires PathsLoad(g, paths) && j < |paths| && i + 1 < |paths[j].nodes| && MovesData(g, paths[j], i)
    ensures AllDataEdges(g, paths[..j]) + DataEdges(g, paths[j], i) < |AllRows(g, qid, paths)|
    ensures var p, row := paths[j], AllRows(g, qid, paths)[AllDataEdges(g, paths[..j]) + DataEdges(g, paths[j], i)];
            IsRowOf(g, qid, Hop(LastPart(p.nodes[i]), LastPart(p.nodes[i + 1]), LastPart(p.edges[i])), row)
  {
    PathLoads(g, paths, j);
    RowInPath(g, qid, paths[j], i);
    RowOfPathAt(g, qid, paths, j, DataEdges(g, paths[j], i));
  }

  lemma HopColumns(g: Graph, qid: string, h: Hop, row: SubgraphRow)
    requires IsHopRow(g, qid, h, row)
    ensures IsRowOf(g, qid, h, row)
  {
    var rs := MetaOf(g, h);
    assert NodesLoad(g, rs);
    LastIsReference(g, rs, "SUBJECT");
    LastIsReference(g, rs, "FILE");
    LastIsReference(g, rs, "NETFLOW");
    LatestConcat(g.NodeMeta(h.n1), g.NodeMeta(h.n2), "SUBJECT");
    LatestConcat(g.NodeMeta(h.n1), g.NodeMeta(h.n2), "FILE");
    LatestConcat(g.NodeMeta(h.n1), g.NodeMeta(h.n2), "NETFLOW");
    assert row == HopRows(g, qid, h.n1, h.n2, h.e)[0];
    assert IsStripped(Stripped(g.edges[h.e].uuid), g.edges[h.e].uuid);
  }

  // ----- Which references have their row -----

  ghost predicate HasType(rs: seq<NodeRow>, nodeType: string) {
    exists k :: 0 <= k < |rs| && rs[k].nodeType == nodeType
  }

  /** The column of a subgraph row that refers to the table of a node type. */
  function Reference(row: SubgraphRow, nodeType: string): string {
    if nodeType == "SUBJECT" then row.subjectUuid else if nodeType == "FILE" then row.fileUuid else row.netflowUuid
  }

  lemma {:induction false} LastIsNamed(g: Graph, rs: seq<NodeRow>, nodeType: string)
    requires NodesLoad(g, rs)
    ensures HasType(rs, nodeType) ==> Named(rs, nodeType, Stripped(LastOfType(rs, nodeType)))
    ensures !HasType(rs, nodeType) ==> Stripped(LastOfType(rs, nodeType)) == "None"
  {
    if rs != [] {
      var k := |rs| - 1;
      if rs[k].nodeType == nodeType {
        assert IsNamed(rs[k], nodeType, Stripped(Some(rs[k].uuid)));
      } else {
        LastIsNamed(g, rs[..k], nodeType);
        if HasType(rs, nodeType) {
          var j :| 0 <= j < |rs| && rs[j].nodeType == nodeType;
          assert rs[..k][j].nodeType == nodeType;
          var i :| 0 <= i < k && IsNamed(rs[..k][i], nodeType, Stripped(LastOfType(rs[..k], nodeType)));
          assert IsNamed(rs[i], nodeType, Stripped(LastOfType(rs, nodeType)));
        }
      }
    }
  }

  /** A reference names a node of its type among the nodes of the hop, or nothing. */
  lemma ReferenceNamed(g: Graph, qid: string, h: Hop, row: SubgraphRow, nodeType: string)
    requires IsHopRow(g, qid, h, row) && IsTable(nodeType)
    ensures HasType(MetaOf(g, h), nodeType) ==> Named(MetaOf(g, h), nodeType, Reference(row, nodeType))
    ensures !HasType(MetaOf(g, h), nodeType) ==> Reference(row, nodeType) == "None"
  {
    var rs := MetaOf(g, h);
    assert NodesLoad(g, rs);
    LastIsNamed(g, rs, nodeType);
    LatestConcat(g.NodeMeta(h.n1), g.NodeMeta(h.n2), nodeType);
    assert Reference(row, nodeType) == Stripped(LastOfType(rs, nodeType));
  }

  /** After loading any paths, a reference of a new row has its row if and only if
      one of the two nodes of its hop is of the type referred to, or a node named
      None was in the table before or is on the paths: a missing node is written as
      the text None. */
  lemma ReferenceHasRowIff(n: Nodes, g: Graph, qid: string, paths: seq<Path>, k: nat, nodeType: string)
    requires PathsLoad(g, paths) && IsTable(nodeType) && k < |AllRows(g, qid, paths)|
    ensures k < |Traversed(g, paths)|
    ensures Has(AddPaths(n, g, qid, paths), nodeType, Reference(AllRows(g, qid, paths)[k], nodeType), qid)
       <==> || HasType(MetaOf(g, Traversed(g, paths)[k]), nodeType)
            || Has(n, nodeType, "None", qid)
            || Seen(g, Traversed(g, paths), nodeType, "None")
  {
    RowsAreHops(g, qid, paths);
    var h, row := Traversed(g, paths)[k], AllRows(g, qid, paths)[k];
    assert IsHopRow(g, qid, h, row);
    ReferenceNamed(g, qid, h, row, nodeType);
    KeysAfterLoading(n, g, qid, paths, nodeType, Reference(row, nodeType));
  }

  // ----- A reference without its row -----

  /** A process reads a file. */
  function OneRead(): Graph {
    Graph(map["1" := [NodeRow("h-a", "SUBJECT", 7, "", "", 0, "", 0)], "2" := [NodeRow("h-b", "FILE", 0, "/x", "", 0, "", 0)]],
          map["3" := EdgeRow(Some("h-c"), "EVENT_READ", "0", 1)],
          map[])
  }

  function OneReadPath(): Path { Path(["1", "2"], ["3"], ["->"]) }

  lemma OneReadNames()
    ensures LastPart("1") == "1" && LastPart("2") == "2" && LastPart("3") == "3"
    ensures Split("h-a", '-') == ["h", "a"] && Split("h-b", '-') == ["h", "b"] && Split("h-c", '-') == ["h", "c"]
  {
    SplitWhole("1", '/');
    SplitWhole("2", '/');
    SplitWhole("3", '/');
    HostAnd("a");
    HostAnd("b");
    HostAnd("c");
  }

  lemma HostAnd(u: string)
    requires '-' !in u
    ensures Split("h-" + u, '-') == ["h", u]
  {
    assert "h" + ['-'] + u == "h-" + u;
    SplitFirst("h", u, '-');
    SplitWhole(u, '-');
  }

  lemma OneReadLoads()
    ensures PathsLoad(OneRead(), [OneReadPath()]) && HopLoads(OneRead(), "1", "2", "3")
    ensures Traversed(OneRead(), [OneReadPath()]) == [Hop("1", "2", "3")]
  {
    OneReadNames();
    var g, p := OneRead(), OneReadPath();
    assert Relevant("EVENT_READ");
    assert HopLoads(g, "1", "2", "3");
    assert HopsLoad(g, p, 1);
    assert PathHops(g, p, 0) == [] && PathHops(g, p, 1) == PathHops(g, p, 0) + IfRelevant(g, Hop("1", "2", "3"));
    assert [p][..0] == [];
    assert Traversed(g, [p]) == Traversed(g, [p][..0]) + PathHops(g, p, 1);
  }

  /** The references of a single hop loaded into empty tables. */
  lemma SingleHop(g: Graph, paths: seq<Path>, h: Hop, qid: string, nodeType: string)
    requires PathsLoad(g, paths) && Traversed(g, paths) == [h] && IsTable(nodeType)
    ensures |AllRows(g, qid, paths)| == 1
    ensures Has(AddPaths(Nodes([], [], []), g, qid, paths), nodeType, Reference(AllRows(g, qid, paths)[0], nodeType), qid)
       <==> HasType(MetaOf(g, h), nodeType) || Seen(g, [h], nodeType, "None")
  {
    RowsAreHops(g, qid, paths);
    ReferenceHasRowIff(Nodes([], [], []), g, qid, paths, 0, nodeType);
  }

  /** Loading it into empty tables leaves a row whose netflow is not there, while its
      process and its file are. */
  lemma ReadDangles(qid: string, paths: seq<Path>)
    requires paths == [OneReadPath()]
    ensures PathsLoad(OneRead(), paths) && |AllRows(OneRead(), qid, paths)| == 1
    ensures var n, row := AddPaths(Nodes([], [], []), OneRead(), qid, paths), AllRows(OneRead(), qid, paths)[0];
            && Has(n, "SUBJECT", Reference(row, "SUBJECT"), qid) && Has(n, "FILE", Reference(row, "FILE"), qid)
            && !Has(n, "NETFLOW", Reference(row, "NETFLOW"), qid)
  {
    var h := Hop("1", "2", "3");
    OneReadLoads();
    OneReadTypes();
    SingleHop(OneRead(), paths, h, qid, "SUBJECT");
    SingleHop(OneRead(), paths, h, qid, "FILE");
    SingleHop(OneRead(), paths, h, qid, "NETFLOW");
  }

  lemma OneReadTypes()
    ensures var h := Hop("1", "2", "3");
            && HasType(MetaOf(OneRead(), h), "SUBJECT") && HasType(MetaOf(OneRead(), h), "FILE")
            && !HasType(MetaOf(OneRead(), h), "NETFLOW") && !Seen(OneRead(), [h], "NETFLOW", "None")
  {
    var rs := MetaOf(OneRead(), Hop("1", "2", "3"));
    assert |rs| == 2 && rs[0].nodeType == "SUBJECT" && rs[1].nodeType == "FILE";
  }
}
