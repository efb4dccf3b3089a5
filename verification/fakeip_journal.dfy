/** The durable side of a Fake IP pool: a snapshot, a journal of deltas tagged
    with the epoch of the snapshot they extend, and how both are read back. */
module FakeIPJournal {
  import opened Wrappers
  import opened Splitting
  import opened AddressSpace
  import opened FakeIPTable
  import DomainName

  const VERSION := 1
  const MAX_RECORD := 4096
  const NEWLINE := '\n'

  datatype Snapshot = Snapshot(version: int, prefix: string, epoch: string, items: seq<Mapping>)

  datatype Record = Record(version: int, prefix: string, epoch: string, update: Update)

  datatype Journal = Journal(records: seq<Record>, torn: bool)

  datatype Disk = Disk(snapshot: Option<Snapshot>, journal: Option<Journal>)

  predicate IsHex(c: char) {
    '0' <= c <= '9' || 'a' <= c <= 'f' || 'A' <= c <= 'F'
  }

  predicate ValidEpoch(epoch: string) {
    |epoch| == 32 && forall c :: c in epoch ==> IsHex(c)
  }

  // ---------------------------------------------------------------------
  // Reading the bytes of a journal. Encoding one record is a parameter; what
  // matters is that an encoded record is one short line.

  type Decoder = string -> Option<Record>
  type Encoder = Record -> string

  ghost predicate OneLine(encode: Encoder, decode: Decoder, record: Record) {
    var line := encode(record);
    && 0 < |line| && |line| + 1 <= MAX_RECORD && NEWLINE !in line
    && decode(line) == Some(record)
  }

  /** Lines, each with its newline. */
  function Text(lines: seq<string>): string {
    if lines == [] then "" else Text(lines[..|lines| - 1]) + lines[|lines| - 1] + [NEWLINE]
  }

  function LinesOf(encode: Encoder, records: seq<Record>): (lines: seq<string>)
    ensures |lines| == |records|
  {
    seq(|records|, i requires 0 <= i < |records| => encode(records[i]))
  }

  /** What a process that appended these records one by one has written. */
  function Written(encode: Encoder, records: seq<Record>): string {
    Text(LinesOf(encode, records))
  }

  /** The index of the last newline, or -1. */
  function LastNewline(contents: string): (i: int)
    ensures -1 <= i < |contents|
    ensures i >= 0 ==> contents[i] == NEWLINE
    ensures forall k :: i < k < |contents| ==> contents[k] != NEWLINE
  {
    if contents == "" then -1
    else if contents[|contents| - 1] == NEWLINE then |contents| - 1
    else LastNewline(contents[..|contents| - 1])
  }

  /** Decodes lines until one is malformed. */
  function DecodeLines(decode: Decoder, lines: seq<string>): (r: (seq<Record>, bool)) {
    if lines == [] then ([], false)
    else
      var front := DecodeLines(decode, lines[..|lines| - 1]);
      if front.1 then front
      else
        var line := lines[|lines| - 1];
        if line == "" || |line| + 1 > MAX_RECORD || decode(line).None? then (front.0, true)
        else (front.0 + [decode(line).value], false)
  }

  lemma {:induction false} MalformedStays(decode: Decoder, lines: seq<string>, n: nat)
    requires n <= |lines| && DecodeLines(decode, lines[..n]).1
    ensures DecodeLines(decode, lines) == DecodeLines(decode, lines[..n])
    decreases |lines| - n
  {
    if n == |lines| {
      assert lines[..n] == lines;
    } else {
      assert lines[..n + 1][..n] == lines[..n];
      MalformedStays(decode, lines, n + 1);
    }
  }

  /** The text up to and including its last newline. */
  function Complete(contents: string): string {
    contents[..LastNewline(contents) + 1]
  }

  /** The records of the complete lines, and whether anything was wrong. */
  function JournalContents(decode: Decoder, contents: string): (seq<Record>, bool) {
    var complete := Complete(contents);
    if complete == "" then ([], contents != "")
    else
      var decoded := DecodeLines(decode, Split(complete[..|complete| - 1], NEWLINE));
      (decoded.0, decoded.1 || complete != contents)
  }

  method DecodeAll(lines: seq<string>, decode: Decoder) returns (records: seq<Record>, malformed: bool)
    ensures (records, malformed) == DecodeLines(decode, lines)
  {
    records, malformed := [], false;
    var i := 0;
    while i < |lines| && !malformed
      invariant 0 <= i <= |lines|
      invariant DecodeLines(decode, lines[..i]) == (records, malformed)
    {
      var line := lines[i];
      assert lines[..i + 1][..i] == lines[..i];
      if line == "" || |line| + 1 > MAX_RECORD || decode(line).None? {
        malformed := true;
      } else {
        records := records + [decode(line).value];
      }
      i := i + 1;
    }
    if malformed {
      MalformedStays(decode, lines, i);
    }
    assert i == |lines| ==> lines[..i] == lines;
  }

  /** readJournal: complete lines are decoded, an unterminated tail is reported
      but costs nothing before it. */
  method ReadJournal(contents: string, decode: Decoder) returns (records: seq<Record>, corrupt: bool)
    ensures (records, corrupt) == JournalContents(decode, contents)
  {
    records, corrupt := [], contents != "";
    var complete := Complete(contents);
    if complete != "" {
      var malformed;
      records, malformed := DecodeAll(Split(complete[..|complete| - 1], NEWLINE), decode);
      corrupt := malformed || complete != contents;
    }
  }

  lemma {:induction false} TextIsJoined(lines: seq<string>)
    requires lines != []
    ensures Text(lines) == Join(lines, NEWLINE) + [NEWLINE]
  {
    var front, last := lines[..|lines| - 1], lines[|lines| - 1];
    if front == [] {
      assert lines == [last];
    } else {
      TextIsJoined(front);
      assert lines == front + [last];
      JoinAppend(front, [last], NEWLINE);
    }
  }

  lemma {:induction false} TextConcat(front: seq<string>, back: seq<string>)
    ensures Text(front + back) == Text(front) + Text(back)
  {
    if back == [] {
      assert front + back == front;
    } else {
      TextConcat(front, back[..|back| - 1]);
      assert (front + back)[..|front + back| - 1] == front + back[..|back| - 1];
    }
  }

  lemma {:induction false} DecodeWritten(encode: Encoder, decode: Decoder, records: seq<Record>)
    requires forall record :: record in records ==> OneLine(encode, decode, record)
    ensures DecodeLines(decode, LinesOf(encode, records)) == (records, false)
  {
    if records != [] {
      var front, last := records[..|records| - 1], records[|records| - 1];
      DecodeWritten(encode, decode, front);
      assert LinesOf(encode, records)[..|records| - 1] == LinesOf(encode, front);
      assert OneLine(encode, decode, last);
      assert front + [last] == records;
    }
  }

  lemma LastNewlineOf(contents: string, i: nat)
    requires i < |contents| && contents[i] == NEWLINE
    requires forall k :: i < k < |contents| ==> contents[k] != NEWLINE
    ensures LastNewline(contents) == i
  {
    var j := LastNewline(contents);
  }

  /** An unterminated tail is not part of the complete text. */
  lemma TailIsDropped(written: string, fragment: string)
    requires written == "" || written[|written| - 1] == NEWLINE
    requires NEWLINE !in fragment
    ensures Complete(written + fragment) == written
  {
    var contents := written + fragment;
    assert forall k :: |written| <= k < |contents| ==> contents[k] == fragment[k - |written|];
    if written != "" {
      LastNewlineOf(contents, |written| - 1);
    }
  }

  lemma LinesHaveNoNewline(encode: Encoder, decode: Decoder, records: seq<Record>)
    requires forall record :: record in records ==> OneLine(encode, decode, record)
    ensures forall line :: line in LinesOf(encode, records) ==> NEWLINE !in line
  {
    forall line | line in LinesOf(encode, records)
      ensures NEWLINE !in line
    {
      var i :| 0 <= i < |records| && LinesOf(encode, records)[i] == line;
      assert OneLine(encode, decode, records[i]);
    }
  }

  /** Text whose last byte ends a line decodes line by line. */
  lemma ContentsOfText(decode: Decoder, lines: seq<string>)
    requires lines != [] && forall line :: line in lines ==> NEWLINE !in line
    ensures Complete(Text(lines)) == Text(lines)
    ensures JournalContents(decode, Text(lines)) == DecodeLines(decode, lines)
  {
    TextIsJoined(lines);
    hide Text, DecodeLines;
    var text := Text(lines);
    assert text + "" == text;
    TailIsDropped(text, "");
    assert text[..|text| - 1] == Join(lines, NEWLINE);
    JoinOfSplitPieces(lines, NEWLINE);
  }

  /** A journal cut off in the middle of its last append still yields every
      record before it; the cut is noticed, and nothing else is. */
  lemma TornJournalKeepsRecords(encode: Encoder, decode: Decoder, records: seq<Record>, fragment: string)
    requires forall record :: record in records ==> OneLine(encode, decode, record)
    requires NEWLINE !in fragment
    ensures JournalContents(decode, Written(encode, records) + fragment) == (records, fragment != "")
  {
    hide OneLine, Complete, DecodeLines, LinesOf, Text, LastNewline;
    var lines := LinesOf(encode, records);
    if records == [] {
      NoText(encode);
      assert Written(encode, records) + fragment == fragment;
      TailIsDropped("", fragment);
    } else {
      LinesHaveNoNewline(encode, decode, records);
      DecodeWritten(encode, decode, records);
      ContentsOfText(decode, lines);
      TextIsJoined(lines);
      TailIsDropped(Text(lines), fragment);
    }
  }

  lemma NoText(encode: Encoder)
    ensures Written(encode, []) == ""
  {
  }

  /** A torn tail that stays in place while the process goes on swallows every
      later append: the next line is the tail and a record in one, and reading
      stops at the first line that is not a record. */
  lemma AppendsAfterTornTail(encode: Encoder, decode: Decoder, before: seq<Record>, fragment: string, first: Record,
                             more: seq<Record>)
    requires forall record :: record in before + [first] + more ==> OneLine(encode, decode, record)
    requires NEWLINE !in fragment
    requires |fragment + encode(first)| + 1 > MAX_RECORD || decode(fragment + encode(first)).None?
    ensures JournalContents(decode, Written(encode, before) + fragment + Written(encode, [first] + more)) == (before, true)
  {
    hide OneLine;
    var lines, merged, rest := LinesOf(encode, before), fragment + encode(first), LinesOf(encode, more);
    JoinedTail(encode, before, fragment, first, more);
    assert forall record :: record in before || record == first || record in more ==> record in before + [first] + more;
    LinesHaveNoNewline(encode, decode, before);
    LinesHaveNoNewline(encode, decode, more);
    LinesHaveNoNewline(encode, decode, [first]);
    assert LinesOf(encode, [first])[0] == encode(first);
    DecodeWritten(encode, decode, before);
    hide LinesOf, Text, Written, Complete, LastNewline;
    ContentsOfText(decode, lines + [merged] + rest);
    assert (lines + [merged] + rest)[..|lines| + 1] == lines + [merged];
    assert (lines + [merged])[..|lines|] == lines;
    MalformedStays(decode, lines + [merged] + rest, |lines| + 1);
  }

  lemma JoinedTail(encode: Encoder, before: seq<Record>, fragment: string, first: Record, more: seq<Record>)
    ensures Written(encode, before) + fragment + Written(encode, [first] + more)
         == Text(LinesOf(encode, before) + [fragment + encode(first)] + LinesOf(encode, more))
  {
    var lines, merged, rest := LinesOf(encode, before), fragment + encode(first), LinesOf(encode, more);
    assert LinesOf(encode, [first] + more) == [encode(first)] + rest;
    TextConcat([encode(first)], rest);
    TextConcat(lines, [merged]);
    TextConcat(lines + [merged], rest);
    assert Text([encode(first)]) == encode(first) + [NEWLINE] && Text([merged]) == merged + [NEWLINE] by {
      assert [merged][..0] == [] && [encode(first)][..0] == [];
    }
  }

  // ---------------------------------------------------------------------
  // Selecting the records that extend the snapshot

  predicate ValidRecord(record: Record, prefix: string) {
    && record.version == VERSION
    && record.prefix == prefix
    && ValidEpoch(record.epoch)
    && record.update.recordedAt != ZERO_TIME
  }

  /** The active records and the epoch to continue with; None is an error. The
      snapshot is the one that was restored, if any. */
  function ActiveRecords(records: seq<Record>, snapshot: Option<Snapshot>, prefix: string): Option<(seq<Record>, string)> {
    if snapshot.None? && records != [] then None
    else if snapshot.Some? && snapshot.value.epoch != "" && !ValidEpoch(snapshot.value.epoch) then None
    else SelectRecords(records, if snapshot.Some? then snapshot.value.epoch else "", prefix)
  }

  /** epoch is the snapshot's, or empty for a snapshot written before epochs. */
  function SelectRecords(records: seq<Record>, epoch: string, prefix: string): Option<(seq<Record>, string)> {
    if records == [] then Some(([], epoch))
    else match SelectRecords(records[..|records| - 1], epoch, prefix)
      case None => None
      case Some((active, wanted)) =>
        var record := records[|records| - 1];
        if !ValidRecord(record, prefix) then None
        else
          var want := if wanted == "" then record.epoch else wanted;
          if epoch != "" && record.epoch != want then Some((active, want))
          else if record.epoch != want then None
          else Some((active + [record], want))
  }

  lemma {:induction false} SelectFailsFrom(records: seq<Record>, epoch: string, prefix: string, n: nat)
    requires n <= |records| && SelectRecords(records[..n], epoch, prefix).None?
    ensures SelectRecords(records, epoch, prefix).None?
    decreases |records| - n
  {
    if n == |records| {
      assert records[..n] == records;
    } else {
      assert records[..n + 1][..n] == records[..n];
      SelectFailsFrom(records, epoch, prefix, n + 1);
    }
  }

  method ActiveJournalRecords(records: seq<Record>, snapshot: Option<Snapshot>, prefix: string)
    returns (result: Option<(seq<Record>, string)>)
    ensures result == ActiveRecords(records, snapshot, prefix)
  {
    if snapshot.None? && records != [] {
      return None;
    }
    var wanted := "";
    if snapshot.Some? {
      wanted := snapshot.value.epoch;
      if wanted != "" && !ValidEpoch(wanted) {
        return None;
      }
    }
    var tagged := snapshot.Some? && snapshot.value.epoch != "";
    ghost var epoch := wanted;
    var active := [];
    for i := 0 to |records|
      invariant SelectRecords(records[..i], epoch, prefix) == Some((active, wanted))
    {
      var record := records[i];
      assert records[..i + 1][..i] == records[..i];
      if !ValidRecord(record, prefix) {
        SelectFailsFrom(records, epoch, prefix, i + 1);
        return None;
      }
      if wanted == "" {
        wanted := record.epoch;
      }
      if tagged && record.epoch != wanted {
      } else if record.epoch != wanted {
        SelectFailsFrom(records, epoch, prefix, i + 1);
        return None;
      } else {
        active := active + [record];
      }
    }
    assert records[..|records|] == records;
    result := Some((active, wanted));
  }

  /** The updates of the records that carry one epoch, in order. */
  function UpdatesOf(records: seq<Record>, epoch: string): seq<Update> {
    if records == [] then []
    else
      var front, last := UpdatesOf(records[..|records| - 1], epoch), records[|records| - 1];
      if last.epoch == epoch then front + [last.update] else front
  }

  function Updates(records: seq<Record>): (updates: seq<Update>)
    ensures |updates| == |records|
  {
    seq(|records|, i requires 0 <= i < |records| => records[i].update)
  }

  /** With a tagged snapshot, records of other epochs are skipped and never
      replayed, and no mixture of epochs is an error. */
  lemma {:induction false} OnlyTheSnapshotEpoch(records: seq<Record>, epoch: string, prefix: string)
    requires epoch != "" && forall record :: record in records ==> ValidRecord(record, prefix)
    ensures SelectRecords(records, epoch, prefix).Some?
    ensures SelectRecords(records, epoch, prefix).value.1 == epoch
    ensures Updates(SelectRecords(records, epoch, prefix).value.0) == UpdatesOf(records, epoch)
    ensures forall record :: record in SelectRecords(records, epoch, prefix).value.0 ==> record.epoch == epoch
  {
    if records != [] {
      var front, last := records[..|records| - 1], records[|records| - 1];
      OnlyTheSnapshotEpoch(front, epoch, prefix);
      var active := SelectRecords(front, epoch, prefix).value.0;
      assert last in records;
      if last.epoch == epoch {
        assert Updates(active + [last]) == Updates(active) + [last.update];
      }
    }
  }

  // ---------------------------------------------------------------------
  // What OpenPersistence makes of a disk

  predicate UsableSnapshot(snapshot: Snapshot, prefix: string) {
    && snapshot.version == VERSION && snapshot.prefix == prefix
    && (snapshot.epoch == "" || ValidEpoch(snapshot.epoch))
  }

  function RestoreSnapshot(range: Range, snapshot: Option<Snapshot>, prefix: string, floor: nat): Option<Table> {
    match snapshot
    case None => None
    case Some(s) => if UsableSnapshot(s, prefix) then RestoreTable(range, s.items, floor) else None
  }

  /** What a journal adds to a restored snapshot, and the epoch to continue
      with; None if any part of the journal is unacceptable. */
  function Extend(range: Range, prefix: string, base: Table, snapshot: Option<Snapshot>, records: seq<Record>, floor: nat)
    : Option<(Table, string)>
  {
    match ActiveRecords(records, snapshot, prefix)
    case None => None
    case Some((active, epoch)) =>
      match Replay(range, base, Updates(active), floor)
      case None => None
      case Some(replayed) => Some((replayed, epoch))
  }

  /** The recovered table, the epoch to continue with (empty when a new one is
      needed), and whether a checkpoint must be written first. */
  datatype Recovery = Recovery(table: Table, epoch: string, rejected: bool, checkpoint: bool)

  function Recover(range: Range, prefix: string, disk: Disk, floor: nat): Recovery {
    var base := RestoreSnapshot(range, disk.snapshot, prefix, floor);
    var table := if base.Some? then base.value else map[];
    match Extend(range, prefix, table, if base.Some? then disk.snapshot else None, Records(disk), floor)
    case None => Recovery(table, "", true, true)
    case Some((replayed, epoch)) => Recovery(replayed, epoch, false, base.None? || Torn(disk))
  }

  predicate Torn(disk: Disk) {
    disk.journal.Some? && disk.journal.value.torn
  }

  /** The durable mappings, without the protection window: the snapshot with
      the records of its own epoch replayed over it. */
  function Durable(range: Range, disk: Disk): Option<Table> {
    match disk.snapshot
    case None => None
    case Some(s) =>
      match RestoreTable(range, s.items, 0)
      case None => None
      case Some(base) => Replay(range, base, UpdatesOf(Records(disk), s.epoch), 0)
  }

  function Records(disk: Disk): seq<Record> {
    if disk.journal.Some? then disk.journal.value.records else []
  }

  /** What this code's own writes keep true of the disk. */
  ghost predicate WellFormed(range: Range, prefix: string, disk: Disk) {
    && disk.snapshot.Some?
    && UsableSnapshot(disk.snapshot.value, prefix) && disk.snapshot.value.epoch != ""
    && (forall record :: record in Records(disk) ==> ValidRecord(record, prefix))
    && Durable(range, disk).Some?
  }

  lemma FlooredValidate(range: Range, item: Mapping, floor: nat)
    ensures match ValidateMapping(range, item, 0)
            case None => ValidateMapping(range, item, floor).None?
            case Some(pair) =>
              ValidateMapping(range, item, floor) == Some((pair.0, Slot(pair.1.address, Max(pair.1.expiresAt, floor), 0)))
  {
    hide DomainName.Normalize;
  }

  lemma FlooredHolders(t: Table, address: nat, floor: nat)
    ensures (exists d :: d in t && t[d].address == address)
       <==> (exists d :: d in Floored(t, floor) && Floored(t, floor)[d].address == address)
  {
    if d :| d in t && t[d].address == address {
      assert d in Floored(t, floor) && Floored(t, floor)[d].address == address;
    }
  }

  lemma {:induction false} FlooredRestore(range: Range, items: seq<Mapping>, floor: nat)
    ensures match RestoreAll(range, items, 0)
            case None => RestoreAll(range, items, floor).None?
            case Some(t) => RestoreAll(range, items, floor) == Some(Floored(t, floor))
  {
    if items != [] {
      var front, last := items[..|items| - 1], items[|items| - 1];
      FlooredRestore(range, front, floor);
      FlooredValidate(range, last, floor);
      if RestoreAll(range, front, 0).Some? && ValidateMapping(range, last, 0).Some? {
        var t, pair := RestoreAll(range, front, 0).value, ValidateMapping(range, last, 0).value;
        FlooredInsert(t, pair.0, pair.1, floor);
        FlooredHolders(t, pair.1.address, floor);
        assert Floored(t, floor).Keys == t.Keys;
      }
    } else {
      assert Floored(map[], floor) == map[];
    }
  }

  /** The protection window changes expiries and nothing else, whatever is on
      disk. */
  lemma FlooredRecover(range: Range, prefix: string, disk: Disk, floor: nat)
    ensures var r := Recover(range, prefix, disk, 0);
            Recover(range, prefix, disk, floor) == r.(table := Floored(r.table, floor))
  {
    hide RestoreTable, Replay, ActiveRecords, Floored, UsableSnapshot;
    if disk.snapshot.Some? {
      RestoresAtAnyFloor(range, disk.snapshot.value.items, floor);
    }
    NothingFloored(floor);
    var base := RestoreSnapshot(range, disk.snapshot, prefix, 0);
    var selected := ActiveRecords(Records(disk), if base.Some? then disk.snapshot else None, prefix);
    if selected.Some? {
      FlooredReplay(range, if base.Some? then base.value else map[], Updates(selected.value.0), floor);
    }
  }

  lemma NothingFloored(floor: nat)
    ensures Floored(map[], floor) == map[]
  {
  }

  lemma RestoresAtAnyFloor(range: Range, items: seq<Mapping>, floor: nat)
    ensures match RestoreTable(range, items, 0)
            case None => RestoreTable(range, items, floor).None?
            case Some(t) => RestoreTable(range, items, floor) == Some(Floored(t, floor))
  {
    FlooredRestore(range, items, floor);
  }

  /** A disk this code wrote is accepted whole, and what comes back is exactly
      its durable table, with expiries raised to the protection window. */
  lemma RecoveryIsDurable(range: Range, prefix: string, disk: Disk, floor: nat)
    requires WellFormed(range, prefix, disk)
    ensures Recover(range, prefix, disk, floor) ==
            Recovery(Floored(Durable(range, disk).value, floor), disk.snapshot.value.epoch, false, Torn(disk))
  {
    var s := disk.snapshot.value;
    FlooredRestore(range, s.items, floor);
    var base := RestoreTable(range, s.items, 0).value;
    OnlyTheSnapshotEpoch(Records(disk), s.epoch, prefix);
    FlooredReplay(range, base, UpdatesOf(Records(disk), s.epoch), floor);
  }

  // ---------------------------------------------------------------------
  // What one write does to the durable table

  function Appended(disk: Disk, record: Record): Disk {
    disk.(journal := Some(Journal(Records(disk) + [record], Torn(disk))))
  }

  function Replaced(disk: Disk, snapshot: Snapshot): Disk {
    disk.(snapshot := Some(snapshot))
  }

  lemma UpdatesAppend(records: seq<Record>, record: Record)
    ensures UpdatesOf(records + [record], record.epoch) == UpdatesOf(records, record.epoch) + [record.update]
  {
    assert (records + [record])[..|records + [record]| - 1] == records;
  }

  lemma ReplayAppend(range: Range, t: Table, updates: seq<Update>, update: Update, floor: nat)
    requires Replay(range, t, updates, floor).Some?
    ensures Replay(range, t, updates + [update], floor)
         == ApplyUpdate(range, Replay(range, t, updates, floor).value, update, floor)
  {
    hide ApplyUpdate;
    assert (updates + [update])[..|updates + [update]| - 1] == updates;
  }

  /** Appending a record of the current epoch applies its update. */
  lemma AppendedIsDurable(range: Range, prefix: string, disk: Disk, record: Record)
    requires WellFormed(range, prefix, disk)
    requires ValidRecord(record, prefix) && record.epoch == disk.snapshot.value.epoch
    ensures Durable(range, Appended(disk, record)) == ApplyUpdate(range, Durable(range, disk).value, record.update, 0)
    ensures Durable(range, Appended(disk, record)).Some? ==> WellFormed(range, prefix, Appended(disk, record))
  {
    hide RestoreTable, ApplyUpdate, UpdatesOf, Replay, ValidRecord, UsableSnapshot;
    var records, s := Records(disk), disk.snapshot.value;
    UpdatesAppend(records, record);
    ReplayAppend(range, RestoreTable(range, s.items, 0).value, UpdatesOf(records, s.epoch), record.update, 0);
  }

  lemma {:induction false} NoRecordsOfEpoch(records: seq<Record>, epoch: string)
    requires forall record :: record in records ==> record.epoch != epoch
    ensures UpdatesOf(records, epoch) == []
  {
    if records != [] {
      NoRecordsOfEpoch(records[..|records| - 1], epoch);
      assert records[|records| - 1] in records;
    }
  }

  /** A snapshot with a fresh epoch is the whole durable state the moment it is
      renamed into place, whether or not the old journal is still there. */
  lemma SnapshotIsDurable(range: Range, prefix: string, disk: Disk, snapshot: Snapshot, t: Table)
    requires UsableSnapshot(snapshot, prefix) && snapshot.epoch != ""
    requires Represents(snapshot.items, t) && ValidTable(range, t)
    requires forall record :: record in Records(disk) ==> ValidRecord(record, prefix) && record.epoch != snapshot.epoch
    ensures Durable(range, Replaced(disk, snapshot)) == Some(Floored(t, 0))
    ensures WellFormed(range, prefix, Replaced(disk, snapshot))
    ensures Durable(range, Replaced(disk, snapshot).(journal := None)) == Some(Floored(t, 0))
    ensures WellFormed(range, prefix, Replaced(disk, snapshot).(journal := None))
  {
    hide RestoreTable, ValidTable, Represents;
    RestoreOfSnapshot(range, snapshot.items, t, 0);
    NoRecordsOfEpoch(Records(disk), snapshot.epoch);
  }
}
