/** From the paths of a query to the replays: the loader's tables, the join over
    them, and the choice of what to replay, put together. */
module TaintQuery {
  import opened Basics
  import opened Text
  import opened Loader
  import opened LoadedTables
  import R = ReplayIndex

  function JoinedRow(s: SubjectRow, e: SubgraphRow): R.Row {
    R.Row(s.pid, s.path, s.uuid, s.principal, e.eventType, e.eventSize)
  }

  /** The row comes from a subject and a subgraph row that refers to it. */
  ghost predicate IsJoined(row: R.Row, subject: seq<SubjectRow>, subgraph: seq<SubgraphRow>, i: int, j: int) {
    && 0 <= i < |subject| && 0 <= j < |subgraph|
    && subject[i].uuid == subgraph[j].subjectUuid && row == JoinedRow(subject[i], subgraph[j])
  }

  /** `SELECT DISTINCT ... FROM subject INNER JOIN subgraph ON ...`: the joined rows,
      each once, in any order. */
  ghost predicate IsAnswer(rows: seq<R.Row>, subject: seq<SubjectRow>, subgraph: seq<SubgraphRow>) {
    && (forall a, b :: 0 <= a < b < |rows| ==> rows[a] != rows[b])
    && (forall row :: row in rows <==> exists i, j :: IsJoined(row, subject, subgraph, i, j))
  }

  /** A subgraph row and a subject that it refers to appear among the rows of the join. */
  lemma RowAnswered(rows: seq<R.Row>, subject: seq<SubjectRow>, subgraph: seq<SubgraphRow>, s: nat, k: nat) returns (i: nat)
    requires IsAnswer(rows, subject, subgraph) && s < |subject| && k < |subgraph| && subject[s].uuid == subgraph[k].subjectUuid
    ensures i < |rows| && rows[i] == JoinedRow(subject[s], subgraph[k])
  {
    var row := JoinedRow(subject[s], subgraph[k]);
    assert IsJoined(row, subject, subgraph, s, k);
    assert row in rows;
    i :| 0 <= i < |rows| && rows[i] == row;
  }

  /** The process that the row of a hop refers to: the last one among its nodes. */
  function ProcessOf(g: Graph, h: Hop): string {
    Stripped(LastOfType(MetaOf(g, h), "SUBJECT"))
  }

  /** The row of the answer is about the hop's process and event. */
  ghost predicate IsAbout(g: Graph, h: Hop, row: R.Row) {
    && h.e in g.edges && row.uuid == ProcessOf(g, h)
    && row.eventType == g.edges[h.e].eventType && row.eventSize == g.edges[h.e].size
  }

  lemma RowOfProcess(g: Graph, qid: string, h: Hop, row: SubgraphRow)
    requires IsHopRow(g, qid, h, row)
    ensures row.subjectUuid == ProcessOf(g, h)
    ensures row.eventType == g.edges[h.e].eventType && row.eventSize == g.edges[h.e].size
  {
    LatestConcat(g.NodeMeta(h.n1), g.NodeMeta(h.n2), "SUBJECT");
  }

  /** The row of a hop joins a subject with its process's identifier. */
  lemma HopAnswered(g: Graph, qid: string, paths: seq<Path>, subgraph: seq<SubgraphRow>, subject: seq<SubjectRow>,
                    rows: seq<R.Row>, s: nat, k: nat) returns (i: nat)
    requires PathsLoad(g, paths) && k < |Traversed(g, paths)| && IsAnswer(rows, subject, subgraph + AllRows(g, qid, paths))
    requires s < |subject| && subject[s].uuid == ProcessOf(g, Traversed(g, paths)[k])
    ensures i < |rows| && IsAbout(g, Traversed(g, paths)[k], rows[i])
    ensures rows[i].pid == subject[s].pid && rows[i].path == subject[s].path && rows[i].principal == subject[s].principal
  {
    RowsAreHops(g, qid, paths);
    var added := AllRows(g, qid, paths);
    assert IsHopRow(g, qid, Traversed(g, paths)[k], added[k]);
    RowOfProcess(g, qid, Traversed(g, paths)[k], added[k]);
    var all := subgraph + added;
    assert all[|subgraph| + k] == added[k];
    i := RowAnswered(rows, subject, all, s, |subgraph| + k);
  }

  /** The last process of a relevant hop is stored. */
  lemma ProcessStored(n: Nodes, g: Graph, qid: string, paths: seq<Path>, k: nat) returns (s: nat)
    requires PathsLoad(g, paths) && k < |Traversed(g, paths)| && HasType(MetaOf(g, Traversed(g, paths)[k]), "SUBJECT")
    ensures var subject := AddPaths(n, g, qid, paths).subject;
            s < |subject| && subject[s].uuid == ProcessOf(g, Traversed(g, paths)[k])
  {
    RowsAreHops(g, qid, paths);
    assert IsHopRow(g, qid, Traversed(g, paths)[k], AllRows(g, qid, paths)[k]);
    RowOfProcess(g, qid, Traversed(g, paths)[k], AllRows(g, qid, paths)[k]);
    ReferenceHasRowIff(n, g, qid, paths, k, "SUBJECT");
    var subject := AddPaths(n, g, qid, paths).subject;
    s :| 0 <= s < |subject| && subject[s].uuid == AllRows(g, qid, paths)[k].subjectUuid;
  }

  /** End to end: after loading any paths, the last process of every relevant hop is
      in the answer with the hop's event, and exactly one of its process's subjects
      gets a log, or none does because the index does not know the name. */
  lemma EveryProcessConsidered(n: Nodes, subgraph: seq<SubgraphRow>, g: Graph, qid: string, paths: seq<Path>,
                               rows: seq<R.Row>, table: seq<(string, string)>, k: nat) returns (i: nat)
    requires PathsLoad(g, paths) && k < |Traversed(g, paths)| && HasType(MetaOf(g, Traversed(g, paths)[k]), "SUBJECT")
    requires IsAnswer(rows, AddPaths(n, g, qid, paths).subject, subgraph + AllRows(g, qid, paths))
    ensures i < |rows| && IsAbout(g, Traversed(g, paths)[k], rows[i])
    ensures (exists j :: 0 <= j < |rows| && rows[j].pid == rows[i].pid && rows[j].path == rows[i].path
               && R.LogFor(rows, table, j).Some?)
       <==> R.Lookup(table, Dec(rows[i].pid) + rows[i].path).Some?
    ensures forall a, b :: 0 <= a < b < |rows| && rows[a].pid == rows[b].pid && rows[a].path == rows[b].path ==>
      !(R.LogFor(rows, table, a).Some? && R.LogFor(rows, table, b).Some?)
  {
    var s := ProcessStored(n, g, qid, paths, k);
    i := HopAnswered(g, qid, paths, subgraph, AddPaths(n, g, qid, paths).subject, rows, s, k);
    R.OneReplayPerProcess(rows, table, i);
  }

  /** The same from the graph's side, for a process that was not stored before: its log
      is replayed if and only if the index knows the process id followed by the name
      of the first file it executed, both as the first node row that names it and the
      graph's execution records say. */
  lemma ReplayedFromGraph(n: Nodes, subgraph: seq<SubgraphRow>, g: Graph, qid: string, paths: seq<Path>,
                          rows: seq<R.Row>, table: seq<(string, string)>, k: nat, first: nat) returns (i: nat)
    requires PathsLoad(g, paths) && k < |Traversed(g, paths)| && HasType(MetaOf(g, Traversed(g, paths)[k]), "SUBJECT")
    requires IsAnswer(rows, AddPaths(n, g, qid, paths).subject, subgraph + AllRows(g, qid, paths))
    requires FirstNamed(RowsSeen(g, Traversed(g, paths)), "SUBJECT", ProcessOf(g, Traversed(g, paths)[k]), first)
    requires !HasSubject(n.subject, ProcessOf(g, Traversed(g, paths)[k]))
    ensures i < |rows| && IsAbout(g, Traversed(g, paths)[k], rows[i])
    ensures var r := RowsSeen(g, Traversed(g, paths))[first];
            && rows[i].pid == r.cid
            && (if r.uuid in g.execs && g.execs[r.uuid] != [] then
                  && IsLastPart(rows[i].path, g.execs[r.uuid][0].name)
                  && IsStripped(rows[i].principal, g.execs[r.uuid][0].principal)
                else rows[i].path == "" && rows[i].principal == "")
            && ((exists j :: 0 <= j < |rows| && rows[j].pid == r.cid && rows[j].path == rows[i].path
                   && R.LogFor(rows, table, j).Some?)
                <==> R.Lookup(table, Dec(r.cid) + rows[i].path).Some?)
  {
    var s := StoredSubject(n, g, qid, paths, ProcessOf(g, Traversed(g, paths)[k]), first);
    i := HopAnswered(g, qid, paths, subgraph, AddPaths(n, g, qid, paths).subject, rows, s, k);
    R.OneReplayPerProcess(rows, table, i);
  }

  /** Conversely, into an empty subgraph: every row of the answer is about some
      relevant hop, and about a process on it unless a subject named None is stored. */
  lemma NothingElseConsidered(n: Nodes, g: Graph, qid: string, paths: seq<Path>, rows: seq<R.Row>, i: nat) returns (k: nat)
    requires PathsLoad(g, paths) && i < |rows|
    requires IsAnswer(rows, AddPaths(n, g, qid, paths).subject, AllRows(g, qid, paths))
    ensures k < |Traversed(g, paths)| && IsAbout(g, Traversed(g, paths)[k], rows[i])
    ensures || HasType(MetaOf(g, Traversed(g, paths)[k]), "SUBJECT")
            || Has(n, "SUBJECT", "None", qid)
            || Seen(g, Traversed(g, paths), "SUBJECT", "None")
  {
    var subject, added := AddPaths(n, g, qid, paths).subject, AllRows(g, qid, paths);
    assert rows[i] in rows;
    var s, j :| IsJoined(rows[i], subject, added, s, j);
    k := j;
    RowsAreHops(g, qid, paths);
    assert IsHopRow(g, qid, Traversed(g, paths)[k], added[k]);
    RowOfProcess(g, qid, Traversed(g, paths)[k], added[k]);
    assert HasSubject(subject, added[k].subjectUuid);
    ReferenceHasRowIff(n, g, qid, paths, k, "SUBJECT");
  }

  /** So, into an empty subgraph, some row of the answer is about a hop if and only if
      the hop has a process, or a subject named None is stored. */
  lemma ConsideredIff(n: Nodes, g: Graph, qid: string, paths: seq<Path>, rows: seq<R.Row>, k: nat)
    requires PathsLoad(g, paths) && k < |Traversed(g, paths)|
    requires IsAnswer(rows, AddPaths(n, g, qid, paths).subject, AllRows(g, qid, paths))
    ensures (exists i :: 0 <= i < |rows| && IsAbout(g, Traversed(g, paths)[k], rows[i]))
       <==> || HasType(MetaOf(g, Traversed(g, paths)[k]), "SUBJECT")
            || Has(n, "SUBJECT", "None", qid)
            || Seen(g, Traversed(g, paths), "SUBJECT", "None")
  {
    var m, added, h := AddPaths(n, g, qid, paths), AllRows(g, qid, paths), Traversed(g, paths)[k];
    RowsAreHops(g, qid, paths);
    assert IsHopRow(g, qid, h, added[k]);
    RowOfProcess(g, qid, h, added[k]);
    ReferenceHasRowIff(n, g, qid, paths, k, "SUBJECT");
    if HasSubject(m.subject, ProcessOf(g, h)) {
      var s :| 0 <= s < |m.subject| && m.subject[s].uuid == ProcessOf(g, h);
      var i := RowAnswered(rows, m.subject, added, s, k);
      assert IsAbout(g, h, rows[i]);
    }
    forall i | 0 <= i < |rows| && IsAbout(g, h, rows[i]) ensures HasSubject(m.subject, ProcessOf(g, h)) {
      assert rows[i] in rows;
      var s, j :| IsJoined(rows[i], m.subject, added, s, j);
      assert m.subject[s].uuid == ProcessOf(g, h);
    }
  }
}
