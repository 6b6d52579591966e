/** Checkpoint files: the little-endian header, the file name behind it, and the
    list of the checkpoints that could be read. */
module Checkpoints {
  import opened Basics
  import opened Text
  import opened Uuid

  datatype Checkpoint = Checkpoint(pid: nat, recordId: nat, parentId: nat, filename: seq<Byte>)

  /** `struct.error` for short data, `ReplayError` for an unreadable file. */
  datatype Unpacked = Unpacked(checkpoint: Checkpoint) | StructError | ReplayError

  /** The value of a little-endian field. */
  function LittleEndian(bs: seq<Byte>): nat {
    if bs == [] then 0 else bs[0] + 256 * LittleEndian(bs[1..])
  }

  function ToLittleEndian(n: nat, width: nat): (bs: seq<Byte>)
    ensures |bs| == width
  {
    if width == 0 then [] else [n % 256] + ToLittleEndian(n / 256, width - 1)
  }

  /** `unpack_ckpt`: the header '<I2QI', then as many bytes as its last field
      says, less the final one. */
  function UnpackCkpt(file: Option<seq<Byte>>): Unpacked {
    match file
    case None => ReplayError
    case Some(data) =>
      if |data| < 24 then StructError
      else
        var count := LittleEndian(data[20..24]);
        if |data| - 24 < count then StructError
        else
          var name := data[24..24 + count];
          Unpacked(Checkpoint(LittleEndian(data[..4]), LittleEndian(data[4..12]), LittleEndian(data[12..20]),
                              if count == 0 then [] else name[..count - 1]))
  }

  /** The file that a recorder writes for a checkpoint. */
  function PackCkpt(c: Checkpoint): seq<Byte> {
    ToLittleEndian(c.pid, 4) + ToLittleEndian(c.recordId, 8) + ToLittleEndian(c.parentId, 8)
    + ToLittleEndian(|c.filename| + 1, 4) + c.filename + [0]
  }

  lemma {:induction false} LittleEndianRoundTrip(n: nat, width: nat)
    requires n < Pow256(width)
    ensures LittleEndian(ToLittleEndian(n, width)) == n
  {
    if width > 0 {
      LittleEndianRoundTrip(n / 256, width - 1);
      assert ToLittleEndian(n, width)[1..] == ToLittleEndian(n / 256, width - 1);
    }
  }

  lemma {:induction false} LittleEndianInverse(bs: seq<Byte>)
    ensures LittleEndian(bs) < Pow256(|bs|)
    ensures ToLittleEndian(LittleEndian(bs), |bs|) == bs
  {
    if bs != [] {
      LittleEndianInverse(bs[1..]);
      assert [bs[0]] + bs[1..] == bs;
    }
  }

  /** Later bytes are worth more, by 256 each. */
  lemma {:induction false} LittleEndianAppend(bs: seq<Byte>, x: Byte)
    ensures LittleEndian(bs + [x]) == LittleEndian(bs) + Pow256(|bs|) * x
  {
    if bs == [] {
      assert bs + [x] == [x] && [x][1..] == [];
    } else {
      assert (bs + [x])[1..] == bs[1..] + [x];
      LittleEndianAppend(bs[1..], x);
      Scaled(Pow256(|bs| - 1), x);
    }
  }

  lemma Scaled(p: nat, x: nat)
    ensures 256 * (p * x) == (256 * p) * x
  {
  }

  ghost predicate Fits(c: Checkpoint) {
    c.pid < Pow256(4) && c.recordId < Pow256(8) && c.parentId < Pow256(8) && |c.filename| + 1 < Pow256(4)
  }

  /** Where the fields of a written checkpoint lie. */
  lemma PackLayout(c: Checkpoint, rest: seq<Byte>)
    ensures var data, count := PackCkpt(c) + rest, |c.filename| + 1;
            && |data| == 24 + count + |rest|
            && data[..4] == ToLittleEndian(c.pid, 4) && data[4..12] == ToLittleEndian(c.recordId, 8)
            && data[12..20] == ToLittleEndian(c.parentId, 8) && data[20..24] == ToLittleEndian(count, 4)
            && data[24..24 + count] == c.filename + [0]
  {
  }

  /** Reading a written checkpoint gives it back, whatever follows in the file. */
  lemma UnpackPacked(c: Checkpoint, rest: seq<Byte>)
    requires Fits(c)
    ensures UnpackCkpt(Some(PackCkpt(c) + rest)) == Unpacked(c)
  {
    PackLayout(c, rest);
    LittleEndianRoundTrip(c.pid, 4);
    LittleEndianRoundTrip(c.recordId, 8);
    LittleEndianRoundTrip(c.parentId, 8);
    LittleEndianRoundTrip(|c.filename| + 1, 4);
  }

  /** Conversely a readable file begins with what is written for the checkpoint
      read from it exactly when it has a name that ends in a zero byte: the last
      byte of the name is dropped whatever it is. */
  lemma PackUnpackedIff(data: seq<Byte>)
    requires UnpackCkpt(Some(data)).Unpacked?
    ensures var count := LittleEndian(data[20..24]);
            (PackCkpt(UnpackCkpt(Some(data)).checkpoint) == data[..24 + count]
             <==> count >= 1 && data[24 + count - 1] == 0)
  {
    var count, packed := LittleEndian(data[20..24]), PackCkpt(UnpackCkpt(Some(data)).checkpoint);
    if count >= 1 {
      LittleEndianInverse(data[..4]);
      LittleEndianInverse(data[4..12]);
      LittleEndianInverse(data[12..20]);
      LittleEndianInverse(data[20..24]);
      Pieces(data, count);
      assert packed[|packed| - 1] == 0;
    } else {
      assert |packed| == 25;
    }
  }

  /** A small file: process 1, record 2, parent record 3, the name "ab". */
  function SmallFile(): seq<Byte> {
    [1, 0, 0, 0] + [2, 0, 0, 0, 0, 0, 0, 0] + [3, 0, 0, 0, 0, 0, 0, 0] + [3, 0, 0, 0] + [97, 98, 0]
  }

  lemma SmallFileReads()
    ensures UnpackCkpt(Some(SmallFile())) == Unpacked(Checkpoint(1, 2, 3, [97, 98]))
  {
    var data := SmallFile();
    assert data[..4] == [1] + [0, 0, 0] && data[4..12] == [2] + [0, 0, 0, 0, 0, 0, 0];
    assert data[12..20] == [3] + [0, 0, 0, 0, 0, 0, 0] && data[20..24] == [3] + [0, 0, 0];
    assert data[24..27] == [97, 98, 0] && [97, 98, 0][..2] == [97, 98];
    Small(1, [0, 0, 0]);
    Small(2, [0, 0, 0, 0, 0, 0, 0]);
    Small(3, [0, 0, 0, 0, 0, 0, 0]);
    Small(3, [0, 0, 0]);
  }

  lemma Small(x: Byte, zeros: seq<Byte>)
    requires forall k :: 0 <= k < |zeros| ==> zeros[k] == 0
    ensures LittleEndian([x] + zeros) == x
  {
    assert ([x] + zeros)[1..] == zeros;
    NoValue(zeros);
  }

  lemma {:induction false} NoValue(zeros: seq<Byte>)
    requires forall k :: 0 <= k < |zeros| ==> zeros[k] == 0
    ensures LittleEndian(zeros) == 0
  {
    if zeros != [] { NoValue(zeros[1..]); }
  }

  /** For every checkpoint, a file that ends its name in some other byte reads as if
      it had ended in zero. */
  lemma UnterminatedReads(c: Checkpoint, x: Byte)
    requires Fits(c) && x != 0
    ensures var data := PackCkpt(c)[..|PackCkpt(c)| - 1] + [x];
            UnpackCkpt(Some(data)) == Unpacked(c) && PackCkpt(c) != data
  {
    var packed := PackCkpt(c);
    var data := packed[..|packed| - 1] + [x];
    PackLayout(c, []);
    assert packed + [] == packed;
    var count := |c.filename| + 1;
    assert data[..4] == packed[..4] && data[4..12] == packed[4..12] && data[12..20] == packed[12..20];
    assert data[20..24] == packed[20..24] && data[24..24 + count][..count - 1] == packed[24..24 + count][..count - 1];
    LittleEndianRoundTrip(c.pid, 4);
    LittleEndianRoundTrip(c.recordId, 8);
    LittleEndianRoundTrip(c.parentId, 8);
    LittleEndianRoundTrip(count, 4);
    assert data[|data| - 1] != packed[|data| - 1];
  }

  lemma Pieces(data: seq<Byte>, count: nat)
    requires 1 <= count && 24 + count <= |data|
    ensures data[..24 + count]
         == data[..4] + data[4..12] + data[12..20] + data[20..24] + data[24..24 + count][..count - 1] + [data[24 + count - 1]]
  {
  }

  // ----- The list of checkpoints -----

  datatype Entry = Entry(dir: string, pid: nat, recordId: nat, name: string)

  datatype Log = Log(dir: string, ckpt: Option<seq<Byte>>)

  function AsText(bs: seq<Byte>): (s: string)
    ensures |s| == |bs| && forall k :: 0 <= k < |bs| ==> s[k] as int == bs[k]
  {
    seq(|bs|, k requires 0 <= k < |bs| => bs[k] as char)
  }

  function EntryOf(log: Log): Option<Entry> {
    match UnpackCkpt(log.ckpt)
    case Unpacked(c) => Some(Entry(log.dir, c.pid, c.recordId, Basename(AsText(c.filename))))
    case _ => None
  }

  /** The readable checkpoints in log order. */
  function Readable(logs: seq<Log>): seq<Entry> {
    Gathered(EntryOf, logs)
  }

  /** `parse_ckpts`: unreadable and corrupted logs are skipped. */
  method ParseCkpts(logs: seq<Log>) returns (ckpts: seq<Entry>)
    ensures ckpts == Readable(logs)
  {
    ckpts := [];
    for i := 0 to |logs|
      invariant ckpts == Readable(logs[..i])
    {
      GatheredNext(EntryOf, logs[..i], logs[i]);
      assert logs[..i] + [logs[i]] == logs[..i + 1];
      match UnpackCkpt(logs[i].ckpt) {
        case Unpacked(c) =>
          ckpts := ckpts + [Entry(logs[i].dir, c.pid, c.recordId, Basename(AsText(c.filename)))];
        case StructError =>
        case ReplayError =>
      }
    }
    assert logs[..|logs|] == logs;
  }

  /** The entry has the log's directory, its checkpoint's pid and record, and the last
      part of its checkpoint's file name. */
  ghost predicate IsEntryOf(log: Log, e: Entry) {
    var u := UnpackCkpt(log.ckpt);
    && u.Unpacked? && e.dir == log.dir && e.pid == u.checkpoint.pid && e.recordId == u.checkpoint.recordId
    && IsLastPart(e.name, AsText(u.checkpoint.filename))
  }

  lemma EntryIff(log: Log, e: Entry)
    ensures EntryOf(log) == Some(e) <==> IsEntryOf(log, e)
    ensures EntryOf(log).None? <==> !UnpackCkpt(log.ckpt).Unpacked?
  {
    var u := UnpackCkpt(log.ckpt);
    if u.Unpacked? {
      var text := AsText(u.checkpoint.filename);
      BasenameIsLastPart(text);
      if IsLastPart(e.name, text) { LastPartUnique(e.name, Basename(text), text); }
    }
  }

  /** The list is in log order: the entry of a readable log stands right behind the
      entries of the readable logs before it, and an unreadable log adds none. */
  lemma ReadableInOrder(before: seq<Log>, log: Log, after: seq<Log>)
    ensures var rs, all := Readable(before), Readable(before + [log] + after);
            && |all| == |rs| + (if UnpackCkpt(log.ckpt).Unpacked? then 1 else 0) + |Readable(after)|
            && rs <= all && Readable(after) == all[|all| - |Readable(after)|..]
            && (UnpackCkpt(log.ckpt).Unpacked? ==> IsEntryOf(log, all[|rs|]))
  {
    var e := EntryOf(log);
    EntryIff(log, if e.Some? then e.value else Entry("", 0, 0, ""));
    GatheredAt(EntryOf, before, log, after);
  }

  /** An entry is listed exactly when some log decodes to it. */
  lemma ReadableExact(logs: seq<Log>, e: Entry)
    ensures e in Readable(logs) <==> exists k :: 0 <= k < |logs| && IsEntryOf(logs[k], e)
  {
    GatheredExact(EntryOf, logs, e);
    forall k | 0 <= k < |logs| ensures EntryOf(logs[k]) == Some(e) <==> IsEntryOf(logs[k], e) { EntryIff(logs[k], e); }
  }
}
