/** From checkpoints to replays: the process index, its lookup, and which of the
    subjects of a query get a log to be replayed from. */
module ReplayIndex {
  import opened Basics
  import opened Text
  import opened Checkpoints

  /** The key of the index: the pid's numeral with the name behind it. */
  function ProcName(pid: nat, name: string): string {
    Dec(pid) + name
  }

  // ----- The index table -----

  /** `SELECT dir FROM rec_index WHERE procname = p`, the first row's. */
  function Lookup(table: seq<(string, string)>, p: string): Option<string> {
    if table == [] then None
    else if table[0].0 == p then Some(table[0].1)
    else Lookup(table[1..], p)
  }

  /** The directory of the earliest checkpoint with the given process name. */
  function FirstDir(ckpts: seq<Entry>, p: string): Option<string> {
    if ckpts == [] then None
    else if ProcName(ckpts[0].pid, ckpts[0].name) == p then Some(ckpts[0].dir)
    else FirstDir(ckpts[1..], p)
  }

  ghost predicate UniqueKeys(table: seq<(string, string)>) {
    forall a, b :: 0 <= a < b < |table| ==> table[a].0 != table[b].0
  }

  lemma {:induction false} LookupAppend(table: seq<(string, string)>, row: (string, string), p: string)
    ensures Lookup(table + [row], p) ==
      if Lookup(table, p).Some? then Lookup(table, p) else if row.0 == p then Some(row.1) else None
  {
    if table == [] {
      assert table + [row] == [row];
      assert [row][1..] == [];
    } else {
      assert (table + [row])[1..] == table[1..] + [row];
      LookupAppend(table[1..], row, p);
    }
  }

  lemma {:induction false} FirstDirAppend(ckpts: seq<Entry>, e: Entry, p: string)
    ensures FirstDir(ckpts + [e], p) ==
      if FirstDir(ckpts, p).Some? then FirstDir(ckpts, p) else if ProcName(e.pid, e.name) == p then Some(e.dir) else None
  {
    if ckpts == [] {
      assert ckpts + [e] == [e];
      assert [e][1..] == [];
    } else {
      assert (ckpts + [e])[1..] == ckpts[1..] + [e];
      FirstDirAppend(ckpts[1..], e, p);
    }
  }

  lemma {:induction false} LookupFound(table: seq<(string, string)>, p: string)
    ensures Lookup(table, p).Some? <==> exists k :: 0 <= k < |table| && table[k].0 == p
  {
    if table != [] {
      LookupFound(table[1..], p);
      if k :| 0 <= k < |table| && table[k].0 == p && k > 0 { assert table[1..][k - 1].0 == p; }
      if k :| 0 <= k < |table| - 1 && table[1..][k].0 == p { assert table[k + 1].0 == p; }
    }
  }

  /** Nothing too long for a varchar(100) column is inserted; a name that is taken
      already is not inserted. */
  ghost predicate AllFit(ckpts: seq<Entry>) {
    forall k :: 0 <= k < |ckpts| ==>
      || (|Dec(ckpts[k].pid) + ckpts[k].name| <= 100 && |ckpts[k].dir| <= 100)
      || FirstDir(ckpts[..k], Dec(ckpts[k].pid) + ckpts[k].name).Some?
  }

  /** `proc_index`: one insertion per checkpoint, where the name is still free. A
      value too long for its column raises, and nothing is committed. */
  method ProcIndex(ckpts: seq<Entry>) returns (ok: bool, table: seq<(string, string)>)
    ensures ok <==> AllFit(ckpts)
    ensures ok ==> UniqueKeys(table) && forall p :: Lookup(table, p) == FirstDir(ckpts, p)
    ensures !ok ==> table == []
  {
    table := [];
    for i := 0 to |ckpts|
      invariant UniqueKeys(table) && AllFit(ckpts[..i])
      invariant forall p :: Lookup(table, p) == FirstDir(ckpts[..i], p)
    {
      var e := ckpts[i];
      var name := ProcName(e.pid, e.name);
      FitsNext(ckpts, i);
      if Lookup(table, name).None? && (|name| > 100 || |e.dir| > 100) {
        return false, [];
      }
      NextRow(ckpts, i, table);
      if Lookup(table, name).None? {
        table := table + [(name, e.dir)];
      }
    }
    assert ckpts[..|ckpts|] == ckpts;
    ok := true;
  }

  lemma FitsNext(ckpts: seq<Entry>, i: nat)
    requires i < |ckpts| && AllFit(ckpts[..i])
    ensures var e := ckpts[i];
            var name := ProcName(e.pid, e.name);
            var fits := (|name| <= 100 && |e.dir| <= 100) || FirstDir(ckpts[..i], name).Some?;
            (AllFit(ckpts[..i + 1]) <==> fits) && (!fits ==> !AllFit(ckpts))
  {
    forall k | 0 <= k <= i ensures ckpts[..i + 1][..k] == ckpts[..k] && (k < i ==> ckpts[..i][..k] == ckpts[..k]) {
    }
    if AllFit(ckpts[..i + 1]) { assert ckpts[..i + 1][i] == ckpts[i]; }
    forall k | 0 <= k < i
      ensures || (|Dec(ckpts[k].pid) + ckpts[k].name| <= 100 && |ckpts[k].dir| <= 100)
              || FirstDir(ckpts[..k], Dec(ckpts[k].pid) + ckpts[k].name).Some?
    {
      assert ckpts[..i][k] == ckpts[k] && ckpts[..i][..k] == ckpts[..k];
    }
  }

  /** The table after one more insertion is the index of one more checkpoint. */
  lemma NextRow(ckpts: seq<Entry>, i: nat, table: seq<(string, string)>)
    requires i < |ckpts| && UniqueKeys(table) && forall p :: Lookup(table, p) == FirstDir(ckpts[..i], p)
    ensures var e := ckpts[i];
            var name := ProcName(e.pid, e.name);
            var next := if Lookup(table, name).None? then table + [(name, e.dir)] else table;
            UniqueKeys(next) && forall p :: Lookup(next, p) == FirstDir(ckpts[..i + 1], p)
  {
    var e := ckpts[i];
    var name := ProcName(e.pid, e.name);
    var next := if Lookup(table, name).None? then table + [(name, e.dir)] else table;
    LookupFound(table, name);
    assert ckpts[..i + 1] == ckpts[..i] + [e];
    forall p ensures Lookup(next, p) == FirstDir(ckpts[..i + 1], p) {
      FirstDirAppend(ckpts[..i], e, p);
      LookupAppend(table, (name, e.dir), p);
    }
  }

  /** FirstDir is the earliest match: its position, and nothing before it. */
  lemma {:induction false} FirstDirIsEarliest(ckpts: seq<Entry>, p: string) returns (k: nat)
    requires FirstDir(ckpts, p).Some?
    ensures k < |ckpts| && ProcName(ckpts[k].pid, ckpts[k].name) == p && ckpts[k].dir == FirstDir(ckpts, p).value
    ensures forall j :: 0 <= j < k ==> ProcName(ckpts[j].pid, ckpts[j].name) != p
  {
    if ProcName(ckpts[0].pid, ckpts[0].name) == p {
      k := 0;
    } else {
      var j := FirstDirIsEarliest(ckpts[1..], p);
      k := j + 1;
      forall i | 0 <= i < k ensures ProcName(ckpts[i].pid, ckpts[i].name) != p {
        if i > 0 { assert ckpts[i] == ckpts[1..][i - 1]; }
      }
    }
  }

  /** There is a directory exactly when some checkpoint has the name. */
  lemma {:induction false} FirstDirFound(ckpts: seq<Entry>, p: string)
    ensures FirstDir(ckpts, p).Some? <==> exists k :: 0 <= k < |ckpts| && ProcName(ckpts[k].pid, ckpts[k].name) == p
  {
    if ckpts != [] {
      FirstDirFound(ckpts[1..], p);
      if k :| 0 <= k < |ckpts| && ProcName(ckpts[k].pid, ckpts[k].name) == p && k > 0 {
        assert ProcName(ckpts[1..][k - 1].pid, ckpts[1..][k - 1].name) == p;
      }
      if k :| 0 <= k < |ckpts| - 1 && ProcName(ckpts[1..][k].pid, ckpts[1..][k].name) == p {
        assert ProcName(ckpts[k + 1].pid, ckpts[k + 1].name) == p;
      }
    }
  }

  // ----- When a process name tells the process -----

  predicate StartsWithDigit(s: string) { s != "" && IsDigit(s[0]) }

  lemma {:induction false} NoLeadingZero(n: nat)
    requires n >= 1
    ensures Dec(n)[0] != '0'
    ensures n >= 10 <==> |Dec(n)| >= 2
  {
    if n >= 10 { NoLeadingZero(n / 10); }
  }

  /** Equal process names of different numerals: the name behind the shorter
      numeral starts with a digit. */
  lemma ShorterNumeral(p: nat, n: string, q: nat, m: string)
    requires ProcName(p, n) == ProcName(q, m) && |Dec(p)| < |Dec(q)|
    ensures StartsWithDigit(n) && Dec(q)[0] == Dec(p)[0]
  {
    var a, b := Dec(p), Dec(q);
    assert (a + n)[0] == (b + m)[0];
    assert (a + n)[|a|] == (b + m)[|a|] == b[|a|];
    assert |a + n| == |b + m|;
    assert n[0] == (a + n)[|a|];
    assert IsDigit(b[|a|]);
  }

  lemma SameNumeral(p: nat, n: string, q: nat, m: string)
    requires ProcName(p, n) == ProcName(q, m) && |Dec(p)| == |Dec(q)|
    ensures p == q && n == m
  {
    assert Dec(p) == ProcName(p, n)[..|Dec(p)|];
    assert Dec(q) == ProcName(q, m)[..|Dec(q)|];
    assert n == ProcName(p, n)[|Dec(p)|..];
    assert m == ProcName(q, m)[|Dec(q)|..];
    DecInjective(p, q);
  }

  /** Between names that do not start with a digit, process names are unique. */
  lemma ProcNameInjective(p: nat, n: string, q: nat, m: string)
    requires ProcName(p, n) == ProcName(q, m)
    requires !StartsWithDigit(n) && !StartsWithDigit(m)
    ensures p == q && n == m
  {
    if |Dec(p)| < |Dec(q)| {
      ShorterNumeral(p, n, q, m);
    } else if |Dec(q)| < |Dec(p)| {
      ShorterNumeral(q, m, p, n);
    } else {
      SameNumeral(p, n, q, m);
    }
  }

  /** Against all conceivable checkpoints, a process name identifies its process
      exactly for one-digit pids whose name does not start with a digit (or for
      pid 0). Every other process shares its name with another one. */
  lemma UnambiguousIff(p: nat, n: string)
    ensures (forall q: nat, m: string :: ProcName(q, m) == ProcName(p, n) ==> q == p && m == n)
       <==> p < 10 && (p == 0 || !StartsWithDigit(n))
  {
    if p < 10 && (p == 0 || !StartsWithDigit(n)) {
      forall q: nat, m: string | ProcName(q, m) == ProcName(p, n) ensures q == p && m == n {
        if |Dec(q)| > 1 {
          ShorterNumeral(p, n, q, m);
          NoLeadingZero(q);
        } else {
          SameNumeral(p, n, q, m);
        }
      }
    } else if p >= 10 {
      var q, m := p / 10, [Digit(p % 10)] + n;
      assert ProcName(q, m) == ProcName(p, n);
    } else {
      var d := n[0] as int - '0' as int;
      var q, m := 10 * p + d, n[1..];
      assert Dec(q) == Dec(p) + [n[0]];
      assert n == [n[0]] + m;
      assert ProcName(q, m) == ProcName(p, n);
    }
  }

  // ----- Which subjects get a log -----

  /** One row of the join of subjects with the subgraph. */
  datatype Row = Row(pid: nat, path: string, uuid: string, principal: string, eventType: string, eventSize: int)

  datatype Subject = Subject(row: Row, logdir: Option<string>)

  /** `Subject.__eq__` (and with it `__hash__`): pid and path only. */
  predicate SameProcess(a: Row, b: Row) {
    a.pid == b.pid && a.path == b.path
  }

  /** The element that stands for its class in set(subjects): the first one. */
  predicate IsFirst(rows: seq<Row>, i: nat)
    requires i < |rows|
  {
    forall j :: 0 <= j < i ==> !SameProcess(rows[j], rows[i])
  }

  function LogFor(rows: seq<Row>, table: seq<(string, string)>, i: nat): Option<string>
    requires i < |rows|
  {
    if IsFirst(rows, i) then Lookup(table, ProcName(rows[i].pid, rows[i].path)) else None
  }

  /** `get_subjects_to_taint`: one subject per row; then, for the elements of the
      set of subjects in any order, the log found under the process name. */
  method GetSubjectsToTaint(rows: seq<Row>, table: seq<(string, string)>) returns (subjects: seq<Subject>)
    ensures |subjects| == |rows|
    ensures forall i :: 0 <= i < |rows| ==> subjects[i] == Subject(rows[i], LogFor(rows, table, i))
  {
    subjects := [];
    for i := 0 to |rows|
      invariant |subjects| == i
      invariant forall j :: 0 <= j < i ==> subjects[j] == Subject(rows[j], None)
    {
      subjects := subjects + [Subject(rows[i], None)];
    }
    var todo := set i | 0 <= i < |rows| && IsFirst(rows, i);
    while todo != {}
      invariant |subjects| == |rows|
      invariant forall i :: i in todo ==> 0 <= i < |rows| && IsFirst(rows, i)
      invariant forall i :: 0 <= i < |rows| ==>
        subjects[i] == Subject(rows[i], if i in todo then None else LogFor(rows, table, i))
      decreases todo
    {
      var i :| i in todo;
      var found := Lookup(table, ProcName(rows[i].pid, rows[i].path));
      if found.Some? {
        subjects := subjects[i := subjects[i].(logdir := found)];
      }
      todo := todo - {i};
    }
  }

  lemma {:induction false} FirstOfClass(rows: seq<Row>, i: nat) returns (k: nat)
    requires i < |rows|
    ensures k <= i && SameProcess(rows[k], rows[i]) && IsFirst(rows, k)
  {
    k := i;
    if !IsFirst(rows, i) {
      var j :| 0 <= j < i && SameProcess(rows[j], rows[i]);
      k := FirstOfClass(rows, j);
    }
  }

  /** However many event rows a process has, at most one of its subjects gets a
      log, and one does exactly when the index knows its process name. */
  lemma OneReplayPerProcess(rows: seq<Row>, table: seq<(string, string)>, i: nat)
    requires i < |rows|
    ensures forall j, k :: 0 <= j < k < |rows| && rows[j].pid == rows[k].pid && rows[j].path == rows[k].path ==>
      !(LogFor(rows, table, j).Some? && LogFor(rows, table, k).Some?)
    ensures (exists k :: 0 <= k < |rows| && rows[k].pid == rows[i].pid && rows[k].path == rows[i].path
               && LogFor(rows, table, k).Some?)
       <==> Lookup(table, ProcName(rows[i].pid, rows[i].path)).Some?
  {
    if Lookup(table, ProcName(rows[i].pid, rows[i].path)).Some? {
      var k := FirstOfClass(rows, i);
      assert LogFor(rows, table, k).Some?;
    }
  }

  // ----- When a log is replayed twice -----

  ghost predicate UniqueDirs(table: seq<(string, string)>) {
    forall a, b :: 0 <= a < b < |table| ==> table[a].1 != table[b].1
  }

  lemma {:induction false} LookupRow(table: seq<(string, string)>, p: string) returns (k: nat)
    requires Lookup(table, p).Some?
    ensures k < |table| && table[k] == (p, Lookup(table, p).value)
  {
    if table[0].0 == p {
      k := 0;
    } else {
      k := LookupRow(table[1..], p);
      k := k + 1;
    }
  }

  /** An index of logs in different directories names each directory once. */
  lemma {:induction false} IndexDirsUnique(ckpts: seq<Entry>, table: seq<(string, string)>)
    requires UniqueKeys(table) && forall p :: Lookup(table, p) == FirstDir(ckpts, p)
    requires forall a, b :: 0 <= a < b < |ckpts| ==> ckpts[a].dir != ckpts[b].dir
    ensures UniqueDirs(table)
  {
    forall a, b | 0 <= a < b < |table| ensures table[a].1 != table[b].1 {
      RowOfCheckpoint(ckpts, table, a, b);
    }
  }

  lemma {:induction false} RowOfCheckpoint(ckpts: seq<Entry>, table: seq<(string, string)>, a: nat, b: nat)
    requires UniqueKeys(table) && forall p :: Lookup(table, p) == FirstDir(ckpts, p)
    requires forall i, j :: 0 <= i < j < |ckpts| ==> ckpts[i].dir != ckpts[j].dir
    requires a < b < |table|
    ensures table[a].1 != table[b].1
  {
    LookupFound(table, table[a].0);
    LookupFound(table, table[b].0);
    var i := LookupRow(table, table[a].0);
    var j := LookupRow(table, table[b].0);
    assert i == a && j == b;
    var k := FirstDirIsEarliest(ckpts, table[a].0);
    var l := FirstDirIsEarliest(ckpts, table[b].0);
    assert k != l;
  }

  /** Two subjects get one log exactly when their processes have one name. */
  lemma SameLogIff(rows: seq<Row>, table: seq<(string, string)>, i: nat, j: nat)
    requires UniqueDirs(table) && i < |rows| && j < |rows|
    requires LogFor(rows, table, i).Some? && LogFor(rows, table, j).Some?
    ensures LogFor(rows, table, i) == LogFor(rows, table, j)
       <==> ProcName(rows[i].pid, rows[i].path) == ProcName(rows[j].pid, rows[j].path)
  {
    var k := LookupRow(table, ProcName(rows[i].pid, rows[i].path));
    var l := LookupRow(table, ProcName(rows[j].pid, rows[j].path));
  }

  /** Two rows have the same process name, and the index knows it. */
  predicate ShareKnownName(a: Row, b: Row, table: seq<(string, string)>) {
    ProcName(a.pid, a.path) == ProcName(b.pid, b.path) && Lookup(table, ProcName(a.pid, a.path)).Some?
  }

  /** No log is given to two subjects if and only if the rows name no two processes
      that share a name which the index knows. */
  lemma NoLogTwiceIff(rows: seq<Row>, table: seq<(string, string)>)
    requires UniqueDirs(table)
    ensures (forall i, j :: 0 <= i < j < |rows| && LogFor(rows, table, i).Some? ==>
               LogFor(rows, table, i) != LogFor(rows, table, j))
       <==> (forall i, j :: 0 <= i < j < |rows| && ShareKnownName(rows[i], rows[j], table) ==>
              rows[i].pid == rows[j].pid && rows[i].path == rows[j].path)
  {
    forall i, j | 0 <= i < j < |rows| && LogFor(rows, table, i).Some? && LogFor(rows, table, i) == LogFor(rows, table, j)
      ensures ShareKnownName(rows[i], rows[j], table) && !SameProcess(rows[i], rows[j])
    {
      SameLogIff(rows, table, i, j);
    }
    forall i, j | 0 <= i < j < |rows| && ShareKnownName(rows[i], rows[j], table) && !SameProcess(rows[i], rows[j])
      ensures exists k, l :: 0 <= k < l < |rows| && LogFor(rows, table, k).Some? && LogFor(rows, table, k) == LogFor(rows, table, l)
    {
      var k := FirstOfClass(rows, i);
      var l := FirstOfClass(rows, j);
      assert k != l && LogFor(rows, table, k) == LogFor(rows, table, l);
    }
  }

  /** Process 1 running "2a" and process 12 running "a": one recorded process, two
      replays. */
  lemma OneLogTwice(dir: string, u: string, v: string)
    ensures var rows, table := [Row(1, "2a", u, "", "EVENT_READ", 0), Row(12, "a", v, "", "EVENT_READ", 0)], [("12a", dir)];
            rows[0].pid != rows[1].pid && LogFor(rows, table, 0) == LogFor(rows, table, 1) == Some(dir)
  {
    assert Dec(1) == "1" && Dec(12) == Dec(1) + "2";
    assert ProcName(1, "2a") == "12a" == ProcName(12, "a");
  }

  /** End to end: with an index built from the logs, and no name in sight that
      starts with a digit, a subject's log is the directory of a log whose
      checkpoint has the subject's pid and executable name. */
  lemma ReplayedLogMatches(logs: seq<Log>, table: seq<(string, string)>, rows: seq<Row>, i: nat) returns (k: nat)
    requires forall p :: Lookup(table, p) == FirstDir(Readable(logs), p)
    requires i < |rows| && !StartsWithDigit(rows[i].path) && LogFor(rows, table, i).Some?
    requires forall e :: e in Readable(logs) ==> !StartsWithDigit(e.name)
    ensures k < |logs| && logs[k].dir == LogFor(rows, table, i).value
    ensures var u := UnpackCkpt(logs[k].ckpt);
            u.Unpacked? && u.checkpoint.pid == rows[i].pid && IsLastPart(rows[i].path, AsText(u.checkpoint.filename))
  {
    var p := ProcName(rows[i].pid, rows[i].path);
    var j := FirstDirIsEarliest(Readable(logs), p);
    var e := Readable(logs)[j];
    assert e in Readable(logs);
    ProcNameInjective(e.pid, e.name, rows[i].pid, rows[i].path);
    ReadableExact(logs, e);
    k :| 0 <= k < |logs| && IsEntryOf(logs[k], e);
  }
}
