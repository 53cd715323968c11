/**
 Log rotation (src/logging.rs) as a machine whose every step is one file operation, so that a crash can fall
 between any two. Renames and the background gzip succeed; writes may be short.
 */
module Logging {
  import opened Wrappers

  type Bytes = seq<bv8>

  datatype Config = Config(rotateSize: nat, maxBackups: nat, compress: bool)

  /** The active file, the numbered backups (decompressed), and the file parked for compression. */
  datatype Disk = Disk(active: Option<Bytes>, slots: map<nat, Bytes>, staging: Option<Bytes>)

  datatype FileOp =
    | Append(data: Bytes)
    | OpenActive
    | RemoveActive
    | RemoveSlot(slot: nat)
    | MoveSlot(slot: nat)
    | MoveActive
    | ParkActive
    | CompressPart(size: nat)
    | CompressAll
    | RemoveStaging

  function Perform(d: Disk, op: FileOp): Disk {
    match op
    case Append(data) => if d.active.Some? then d.(active := Some(d.active.value + data)) else d
    case OpenActive => if d.active.Some? then d else d.(active := Some([]))
    case RemoveActive => d.(active := None)
    case RemoveSlot(i) => d.(slots := d.slots - {i})
    case MoveSlot(i) => if i in d.slots then d.(slots := (d.slots - {i})[i + 1 := d.slots[i]]) else d
    case MoveActive => if d.active.Some? then d.(active := None, slots := d.slots[1 := d.active.value]) else d
    case ParkActive => if d.active.Some? then d.(active := None, staging := d.active) else d
    case CompressPart(n) =>
      if d.staging.Some? && n <= |d.staging.value| then d.(slots := d.slots[1 := d.staging.value[..n]]) else d
    case CompressAll => if d.staging.Some? then d.(slots := d.slots[1 := d.staging.value]) else d
    case RemoveStaging => d.(staging := None)
  }

  // ----- the machine -----

  /** Where the thread that logs is; `buf` is what it was asked to write. */
  datatype Pc =
    | Idle
    | Joining(buf: Bytes)
    | RemovingOldest(buf: Bytes)
    | Shifting(slot: nat, buf: Bytes)
    | Parking(buf: Bytes)
    | Opening(buf: Bytes)
    | Writing(buf: Bytes)

  datatype Thread = NoThread | Compressing | Removing

  datatype Process = Down | Up(pc: Pc, currentSize: nat, thread: Thread)

  /**
   `written` is everything ever appended, `longest` the longest single write and `found` the disk the first
   process found; all three are kept for the statements only.
   */
  datatype Sys = Sys(disk: Disk, process: Process, written: Bytes, longest: nat, found: Disk)

  datatype Step =
    | Begin(buf: Bytes)
    | Foreground(accepted: nat)
    | CompressSome(size: nat)
    | CompressRest
    | FinishCompression
    | Crash
    | Restart

  function Max(a: nat, b: nat): nat {
    if a < b then b else a
  }

  function RotateSize(c: Config): nat {
    Max(c.rotateSize, 1)
  }

  /** Whether a write of `len` bytes rotates first. */
  predicate Rotates(c: Config, currentSize: nat, len: nat) {
    currentSize > 0 && currentSize + len > RotateSize(c)
  }

  function At(s: Sys, pc: Pc, op: FileOp): Sys
    requires s.process.Up?
  {
    s.(disk := Perform(s.disk, op), process := s.process.(pc := pc))
  }

  function AfterOldest(c: Config, buf: Bytes): Pc {
    if c.maxBackups > 1 then Shifting(c.maxBackups - 1, buf) else Parking(buf)
  }

  /** One step of the logging thread; `accepted` bounds how much a write takes. */
  function Advance(c: Config, s: Sys, accepted: nat): Sys
    requires s.process.Up?
  {
    match s.process.pc
    case Idle => s
    case Joining(buf) =>
      if s.process.thread != NoThread then s
      else s.(process := s.process.(pc := if c.maxBackups == 0 then Parking(buf) else RemovingOldest(buf)))
    case RemovingOldest(buf) => At(s, AfterOldest(c, buf), RemoveSlot(c.maxBackups))
    case Shifting(i, buf) => At(s, if i <= 1 then Parking(buf) else Shifting(i - 1, buf), MoveSlot(i))
    case Parking(buf) =>
      if c.maxBackups == 0 then At(s, Opening(buf), RemoveActive)
      else if c.compress then
        var parked := At(s, Opening(buf), ParkActive);
        if s.disk.active.Some? then parked.(process := parked.process.(thread := Compressing)) else parked
      else At(s, Opening(buf), MoveActive)
    case Opening(buf) =>
      var reopened := At(s, Writing(buf), OpenActive);
      reopened.(process := reopened.process.(currentSize := 0))
    case Writing(buf) =>
      var data := buf[..if accepted <= |buf| then accepted else |buf|];
      var done := At(s, Idle, Append(data));
      done.(process := done.process.(currentSize := s.process.currentSize + |data|), written := s.written + data)
  }

  function Apply(c: Config, s: Sys, step: Step): Sys {
    match step
    case Begin(buf) =>
      if s.process.Up? && s.process.pc.Idle? then
        s.(process := s.process.(pc := if Rotates(c, s.process.currentSize, |buf|) then Joining(buf) else Writing(buf)),
           longest := Max(s.longest, |buf|))
      else s
    case Foreground(accepted) => if s.process.Up? then Advance(c, s, accepted) else s
    case CompressSome(n) =>
      if s.process.Up? && s.process.thread == Compressing then s.(disk := Perform(s.disk, CompressPart(n))) else s
    case CompressRest =>
      if s.process.Up? && s.process.thread == Compressing
      then s.(disk := Perform(s.disk, CompressAll), process := s.process.(thread := Removing)) else s
    case FinishCompression =>
      if s.process.Up? && s.process.thread == Removing
      then s.(disk := Perform(s.disk, RemoveStaging), process := s.process.(thread := NoThread)) else s
    case Crash => s.(process := Down)
    case Restart =>
      if s.process.Up? then s
      else
        var disk := Perform(s.disk, OpenActive);
        var resumes := c.compress && c.maxBackups > 0 && disk.staging.Some?;
        s.(disk := disk, process := Up(Idle, |disk.active.value|, if resumes then Compressing else NoThread))
  }

  /** A run over a directory as the first process found it; what could be read there counts as written. */
  function Exec(c: Config, start: Disk, steps: seq<Step>): Sys {
    if steps == [] then Sys(start, Down, View(c, start), 0, start)
    else Apply(c, Exec(c, start, steps[..|steps| - 1]), steps[|steps| - 1])
  }

  // ----- reading the log back -----

  function Content(file: Option<Bytes>): Bytes {
    if file.Some? then file.value else []
  }

  function Slot(slots: map<nat, Bytes>, i: nat): Bytes {
    if i in slots then slots[i] else []
  }

  /** Backups `hi` down to `lo`, oldest first. */
  function Backups(slots: map<nat, Bytes>, hi: nat, lo: nat): Bytes
    decreases hi
  {
    if hi < lo || hi == 0 then [] else Slot(slots, hi) + Backups(slots, hi - 1, lo)
  }

  /** Oldest backup to slot 1, which a parked file stands in for, then the active file. */
  function View(c: Config, d: Disk): Bytes {
    (if d.staging.Some? then Backups(d.slots, c.maxBackups, 2) + d.staging.value
     else Backups(d.slots, c.maxBackups, 1))
    + Content(d.active)
  }

  predicate IsSuffix(tail: Bytes, all: Bytes) {
    |tail| <= |all| && all[|all| - |tail|..] == tail
  }

  lemma SuffixOfSuffix(a: Bytes, b: Bytes, all: Bytes)
    requires IsSuffix(a, b) && IsSuffix(b, all)
    ensures IsSuffix(a, all)
  {
  }

  lemma SuffixAppend(tail: Bytes, all: Bytes, data: Bytes)
    requires IsSuffix(tail, all)
    ensures IsSuffix(tail + data, all + data)
  {
  }

  lemma Regroup(a: Bytes, b: Bytes, c: Bytes)
    ensures a + (b + c) == (a + b) + c
  {
  }

  // ----- the invariant -----

  ghost predicate PcOk(c: Config, s: Sys)
    requires s.process.Up?
  {
    var (pc, slots) := (s.process.pc, s.disk.slots);
    && (pc.RemovingOldest? || pc.Shifting? || pc.Parking? ==> s.disk.staging.None?)
    && (pc.RemovingOldest? ==> c.maxBackups > 0)
    && (pc.Shifting? ==> 1 <= pc.slot < c.maxBackups && pc.slot + 1 !in slots)
    && (pc.Parking? ==> 1 !in slots)
    && (pc.Opening? <==> s.disk.active.None?)
    && (s.disk.active.Some? ==> s.process.currentSize == |s.disk.active.value|)
    && (pc.Writing? ==> !Rotates(c, s.process.currentSize, |pc.buf|))
    && (!pc.Idle? ==> |pc.buf| <= s.longest)
  }

  ghost predicate ThreadOk(c: Config, s: Sys)
    requires s.process.Up?
  {
    && (s.process.thread == NoThread <==> s.disk.staging.None?)
    && (s.process.thread == Removing ==> 1 in s.disk.slots && Some(s.disk.slots[1]) == s.disk.staging)
  }

  /** The active file is within bounds, or is the file found at the start and nothing has been written since. */
  ghost predicate SizeOk(c: Config, s: Sys) {
    |Content(s.disk.active)| <= Max(RotateSize(c), s.longest)
    || (s.disk.active == s.found.active && s.written == View(c, s.found))
  }

  /** The files of a directory that the configuration uses, whatever their sizes; no other file is ever touched. */
  predicate StartOk(c: Config, d: Disk) {
    (forall i :: i in d.slots ==> 1 <= i <= c.maxBackups) && (d.staging.Some? ==> c.compress && c.maxBackups > 0)
  }

  ghost predicate Inv(c: Config, s: Sys) {
    && StartOk(c, s.disk)
    && IsSuffix(View(c, s.disk), s.written)
    && SizeOk(c, s)
    && (s.process.Up? ==> PcOk(c, s) && ThreadOk(c, s))
  }

  /** A step that drops nothing: what is read gains exactly what was written. */
  ghost predicate Keeps(c: Config, s: Sys, s': Sys) {
    s.written <= s'.written && View(c, s'.disk) == View(c, s.disk) + s'.written[|s.written|..]
  }

  lemma {:induction false} BackupsFrame(a: map<nat, Bytes>, b: map<nat, Bytes>, hi: nat, lo: nat)
    requires forall i :: lo <= i <= hi && i > 0 ==> Slot(a, i) == Slot(b, i)
    ensures Backups(a, hi, lo) == Backups(b, hi, lo)
  {
    if hi >= lo && hi > 0 {
      BackupsFrame(a, b, hi - 1, lo);
    }
  }

  lemma TopBackup(slots: map<nat, Bytes>, hi: nat, lo: nat)
    requires 1 <= lo <= hi
    ensures Backups(slots, hi, lo) == Slot(slots, hi) + Backups(slots, hi - 1, lo)
  {
  }

  /** Moving a backup up into a free slot does not change what is read. */
  lemma {:induction false} MoveKeepsBackups(slots: map<nat, Bytes>, i: nat, hi: nat, lo: nat)
    requires 1 <= lo <= i < hi && i in slots && i + 1 !in slots
    ensures Backups((slots - {i})[i + 1 := slots[i]], hi, lo) == Backups(slots, hi, lo)
  {
    var moved := (slots - {i})[i + 1 := slots[i]];
    TopBackup(moved, hi, lo);
    TopBackup(slots, hi, lo);
    hide Backups;
    if hi == i + 1 {
      BackupsFrame(moved, slots, i - 1, lo);
      TopBackup(moved, i, lo);
      TopBackup(slots, i, lo);
    } else {
      MoveKeepsBackups(slots, i, hi - 1, lo);
    }
  }

  lemma {:induction false} BackupsToOne(slots: map<nat, Bytes>, hi: nat)
    requires hi >= 1
    ensures Backups(slots, hi, 1) == Backups(slots, hi, 2) + Slot(slots, 1)
  {
    if hi == 1 {
      assert Backups(slots, 1, 1) == Slot(slots, 1) + Backups(slots, 0, 1);
    } else {
      BackupsToOne(slots, hi - 1);
    }
  }

  /** What the oldest slot's removal drops is a prefix. */
  lemma RemoveOldestKeepsSuffix(slots: map<nat, Bytes>, hi: nat)
    requires hi > 0
    ensures IsSuffix(Backups(slots - {hi}, hi, 1), Backups(slots, hi, 1))
  {
    BackupsFrame(slots - {hi}, slots, hi - 1, 1);
    assert Backups(slots, hi, 1) == Slot(slots, hi) + Backups(slots, hi - 1, 1);
    assert Backups(slots - {hi}, hi, 1) == [] + Backups(slots, hi - 1, 1);
  }

  /** With slot 1 free, the next file can take its place, parked or renamed. */
  lemma NewestBackup(slots: map<nat, Bytes>, hi: nat, data: Bytes)
    requires hi > 0 && 1 !in slots
    ensures Backups(slots[1 := data], hi, 1) == Backups(slots, hi, 1) + data
    ensures Backups(slots, hi, 2) == Backups(slots, hi, 1)
  {
    BackupsToOne(slots, hi);
    BackupsToOne(slots[1 := data], hi);
    BackupsFrame(slots, slots[1 := data], hi, 2);
  }

  lemma RemovingKeepsInv(c: Config, s: Sys)
    requires Inv(c, s) && s.process.Up? && s.process.pc.RemovingOldest?
    ensures Inv(c, Advance(c, s, 0))
  {
    hide Backups, IsSuffix;
    var (s', slots, m) := (Advance(c, s, 0), s.disk.slots, c.maxBackups);
    RemoveOldestKeepsSuffix(slots, m);
    SuffixAppend(Backups(slots - {m}, m, 1), Backups(slots, m, 1), Content(s.disk.active));
    SuffixOfSuffix(View(c, s'.disk), View(c, s.disk), s.written);
  }

  lemma ParkingKeepsInv(c: Config, s: Sys)
    requires Inv(c, s) && s.process.Up? && s.process.pc.Parking?
    ensures Inv(c, Advance(c, s, 0)) && (c.maxBackups > 0 ==> Keeps(c, s, Advance(c, s, 0)))
  {
    hide Backups, IsSuffix;
    var s' := Advance(c, s, 0);
    if c.maxBackups == 0 {
      NothingIsSuffix(c, s'.disk, s.written);
    } else {
      NewestBackup(s.disk.slots, c.maxBackups, s.disk.active.value);
      assert View(c, s'.disk) == View(c, s.disk);
    }
  }

  lemma WritingKeepsInv(c: Config, s: Sys, accepted: nat)
    requires Inv(c, s) && s.process.Up? && s.process.pc.Writing?
    ensures Inv(c, Advance(c, s, accepted)) && Keeps(c, s, Advance(c, s, accepted))
  {
    hide View, IsSuffix;
    var buf := s.process.pc.buf;
    var data := buf[..if accepted <= |buf| then accepted else |buf|];
    SuffixAppend(View(c, s.disk), s.written, data);
    AppendView(c, s.disk, data);
    assert (s.written + data)[|s.written|..] == data;
  }

  lemma AppendView(c: Config, d: Disk, data: Bytes)
    requires d.active.Some?
    ensures View(c, Perform(d, Append(data))) == View(c, d) + data
  {
    hide Backups;
    Regroup(if d.staging.Some? then Backups(d.slots, c.maxBackups, 2) + d.staging.value
            else Backups(d.slots, c.maxBackups, 1),
            d.active.value, data);
  }

  lemma AdvanceKeepsInv(c: Config, s: Sys, accepted: nat)
    requires Inv(c, s) && s.process.Up?
    ensures Inv(c, Advance(c, s, accepted))
    ensures c.maxBackups > 0 && !s.process.pc.RemovingOldest? ==> Keeps(c, s, Advance(c, s, accepted))
  {
    hide Backups, IsSuffix;
    match s.process.pc
    case Idle =>
    case Joining(_) =>
    case RemovingOldest(_) => RemovingKeepsInv(c, s);
    case Shifting(i, _) =>
      if i in s.disk.slots {
        MoveKeepsBackups(s.disk.slots, i, c.maxBackups, 1);
      }
    case Parking(_) => ParkingKeepsInv(c, s);
    case Opening(_) =>
    case Writing(_) => WritingKeepsInv(c, s, accepted);
  }

  lemma NothingIsSuffix(c: Config, d: Disk, all: Bytes)
    requires c.maxBackups == 0 && d.active.None? && d.staging.None?
    ensures IsSuffix(View(c, d), all)
  {
  }

  /** While a file is parked, slot 1 is not read. */
  lemma BackgroundKeepsInv(c: Config, s: Sys, step: Step)
    requires Inv(c, s) && (step.CompressSome? || step.CompressRest? || step.FinishCompression?)
    ensures Inv(c, Apply(c, s, step)) && Keeps(c, s, Apply(c, s, step))
  {
    hide Backups, IsSuffix;
    var s' := Apply(c, s, step);
    if s.disk.staging.Some? {
      BackupsFrame(s.disk.slots, s'.disk.slots, c.maxBackups, 2);
      BackupsToOne(s'.disk.slots, c.maxBackups);
    }
  }

  /** The one step that removes the oldest backup. */
  predicate Drops(s: Sys, step: Step) {
    step.Foreground? && s.process.Up? && s.process.pc.RemovingOldest?
  }

  lemma StepKeepsFound(c: Config, s: Sys, step: Step)
    ensures Apply(c, s, step).found == s.found
  {
  }

  lemma StepKeepsInv(c: Config, s: Sys, step: Step)
    requires Inv(c, s)
    ensures Inv(c, Apply(c, s, step))
    ensures c.maxBackups > 0 && !Drops(s, step) ==> Keeps(c, s, Apply(c, s, step))
  {
    hide Backups, IsSuffix, Advance;
    match step
    case Begin(_) =>
    case Foreground(accepted) =>
      if s.process.Up? {
        AdvanceKeepsInv(c, s, accepted);
      }
    case CompressSome(_) => BackgroundKeepsInv(c, s, step);
    case CompressRest => BackgroundKeepsInv(c, s, step);
    case FinishCompression => BackgroundKeepsInv(c, s, step);
    case Crash =>
    case Restart =>
  }

  lemma {:induction false} ExecKeepsInv(c: Config, start: Disk, steps: seq<Step>)
    requires StartOk(c, start)
    ensures Inv(c, Exec(c, start, steps)) && Exec(c, start, steps).found == start
  {
    if steps == [] {
    } else {
      ExecKeepsInv(c, start, steps[..|steps| - 1]);
      StepKeepsInv(c, Exec(c, start, steps[..|steps| - 1]), steps[|steps| - 1]);
      StepKeepsFound(c, Exec(c, start, steps[..|steps| - 1]), steps[|steps| - 1]);
    }
  }

  /**
   Whatever the files found, whatever the writes, the crashes and the restarts: the log read back is the end of what
   was written, there are never more backups than configured, and the active file exceeds the rotation size and the
   longest write only as long as it is the file found and nothing has been written.
   */
  lemma LogIsSuffix(c: Config, start: Disk, steps: seq<Step>)
    requires StartOk(c, start)
    ensures var s := Exec(c, start, steps);
      && IsSuffix(View(c, s.disk), s.written)
      && |s.disk.slots| <= c.maxBackups
      && (|Content(s.disk.active)| <= Max(RotateSize(c), s.longest)
          || (s.disk.active == start.active && s.written == View(c, start)))
  {
    ExecKeepsInv(c, start, steps);
    var s := Exec(c, start, steps);
    KeysBounded(s.disk.slots.Keys, c.maxBackups);
    assert |s.disk.slots| == |s.disk.slots.Keys|;
  }

  /** With backups configured, only the removal of the oldest one drops anything, and exactly that backup. */
  lemma OnlyOldestIsDropped(c: Config, start: Disk, steps: seq<Step>, step: Step)
    requires c.maxBackups > 0 && StartOk(c, start)
    ensures var s := Exec(c, start, steps);
      var s' := Apply(c, s, step);
      if Drops(s, step) then View(c, s.disk) == Slot(s.disk.slots, c.maxBackups) + View(c, s'.disk)
      else Keeps(c, s, s')
  {
    hide Apply, Exec;
    var s := Exec(c, start, steps);
    ExecKeepsInv(c, start, steps);
    if Drops(s, step) {
      DroppedBackup(c, s, step);
    } else {
      StepKeepsInv(c, s, step);
    }
  }

  /** Whether a write of `len` bytes would take a nonempty file of `size` bytes over the configured limit. */
  predicate Exceeds(c: Config, size: nat, len: nat) {
    size > 0 && size + len > c.rotateSize && size + len > 1
  }

  /** In every run, a write sets out to rotate exactly when the active file would outgrow the configured limit. */
  lemma RotatesExactlyWhenFull(c: Config, start: Disk, steps: seq<Step>, step: Step)
    requires StartOk(c, start)
    ensures var (s, s') := (Exec(c, start, steps), Apply(c, Exec(c, start, steps), step));
      s'.process.Up? && s'.process.pc.Joining? && !(s.process.Up? && s.process.pc.Joining?) <==>
      s.process.Up? && s.process.pc.Idle? && step.Begin? && Exceeds(c, |Content(s.disk.active)|, |step.buf|)
  {
    hide Exec, View, IsSuffix, Perform;
    ExecKeepsInv(c, start, steps);
  }

  lemma DroppedBackup(c: Config, s: Sys, step: Step)
    requires Inv(c, s) && Drops(s, step)
    ensures View(c, s.disk) == Slot(s.disk.slots, c.maxBackups) + View(c, Apply(c, s, step).disk)
  {
    hide Backups;
    var (slots, m) := (s.disk.slots, c.maxBackups);
    var rest := Backups(slots, m - 1, 1);
    BackupsFrame(slots - {m}, slots, m - 1, 1);
    TopBackup(slots, m, 1);
    TopBackup(slots - {m}, m, 1);
    assert [] + rest == rest;
    Regroup(Slot(slots, m), rest, Content(s.disk.active));
  }

  lemma {:induction false} KeysBounded(keys: set<nat>, n: nat)
    requires forall i :: i in keys ==> 1 <= i <= n
    ensures |keys| <= n
  {
    if n > 0 {
      KeysBounded(keys - {n}, n - 1);
    } else {
      assert forall i :: i !in keys;
      assert keys == {};
    }
  }

  // ----- the writer -----

  /** The disk once a compression in flight has ended. */
  function Joined(d: Disk, thread: Thread): (r: Disk)
    ensures r.active == d.active
  {
    if thread != NoThread && d.staging.Some? then d.(slots := d.slots[1 := d.staging.value], staging := None) else d
  }

  predicate HasBelow(slots: map<nat, Bytes>, i: nat) {
    i >= 1 && i - 1 in slots
  }

  /** Every backup one number up, the oldest dropped. */
  function Shifted(slots: map<nat, Bytes>, maxBackups: nat): map<nat, Bytes> {
    map i: nat | 2 <= i <= maxBackups && HasBelow(slots, i) :: slots[i - 1]
  }

  function RotatedDisk(c: Config, d: Disk): Disk {
    if c.maxBackups == 0 then d.(active := None)
    else if c.compress then Disk(None, Shifted(d.slots, c.maxBackups), d.active)
    else Disk(None, Shifted(d.slots, c.maxBackups)[1 := Content(d.active)], None)
  }

  /** What a rotation does to everything but the active file, with a compression in flight first brought to its end. */
  ghost predicate Rotated(c: Config, d: Disk, thread: Thread, d': Disk, thread': Thread) {
    var kept := if thread == NoThread then d.slots else d.slots[1 := Content(d.staging)];
    if c.maxBackups == 0 then d'.slots == kept && d'.staging.None? && thread' == NoThread
    else
      && (forall i :: i in d'.slots ==> 1 <= i <= c.maxBackups)
      && (forall i: nat :: 2 <= i <= c.maxBackups ==> Get(d'.slots, i) == Get(kept, i - 1))
      && Get(d'.slots, 1) == (if c.compress then None else d.active)
      && d'.staging == (if c.compress then d.active else None)
      && thread' == if c.compress then Compressing else NoThread
  }

  lemma RotatedDiskIs(c: Config, d: Disk, thread: Thread, d': Disk, thread': Thread)
    requires d.active.Some? && (thread == NoThread <==> d.staging.None?) && StartOk(c, d)
    requires d'.slots == RotatedDisk(c, Joined(d, thread)).slots
    requires d'.staging == RotatedDisk(c, Joined(d, thread)).staging
    requires thread' == if c.maxBackups > 0 && c.compress then Compressing else NoThread
    ensures Rotated(c, d, thread, d', thread')
  {
    var joined := Joined(d, thread);
    assert joined.slots == if thread == NoThread then d.slots else d.slots[1 := Content(d.staging)];
    hide Joined;
    if c.maxBackups > 0 {
      var shifted := Shifted(joined.slots, c.maxBackups);
      forall i: nat | 2 <= i <= c.maxBackups ensures Get(shifted, i) == Get(joined.slots, i - 1) {
        assert HasBelow(joined.slots, i) <==> i - 1 in joined.slots;
      }
    }
  }

  lemma ExecStep(c: Config, start: Disk, steps: seq<Step>, step: Step)
    ensures Exec(c, start, steps + [step]) == Apply(c, Exec(c, start, steps), step)
  {
    assert (steps + [step])[..|steps|] == steps;
  }

  /** What the invariant says about a process at work. */
  lemma UpState(c: Config, start: Disk, steps: seq<Step>)
    requires StartOk(c, start) && Exec(c, start, steps).process.Up?
    ensures var s := Exec(c, start, steps);
      PcOk(c, s) && ThreadOk(c, s) && forall i :: i in s.disk.slots ==> 1 <= i <= c.maxBackups
  {
    ExecKeepsInv(c, start, steps);
  }

  function Get(slots: map<nat, Bytes>, i: int): Option<Bytes> {
    if i >= 0 && i in slots then Some(slots[i]) else None
  }

  function PartlyShifted(before: map<nat, Bytes>, index: nat, maxBackups: nat, i: nat): Option<Bytes> {
    if i <= index then Get(before, i) else if index + 2 <= i <= maxBackups then Get(before, i - 1) else None
  }

  /** The slots while the loop of `rotate_files` has still to move `index` and below. */
  ghost predicate ShiftedAbove(before: map<nat, Bytes>, now: map<nat, Bytes>, index: nat, maxBackups: nat) {
    forall i: nat :: Get(now, i) == PartlyShifted(before, index, maxBackups, i)
  }

  lemma ShiftOne(before: map<nat, Bytes>, now: map<nat, Bytes>, index: nat, maxBackups: nat)
    requires ShiftedAbove(before, now, index, maxBackups) && 1 <= index < maxBackups
    ensures ShiftedAbove(before, if index in now then (now - {index})[index + 1 := now[index]] else now,
                         index - 1, maxBackups)
  {
    var now' := if index in now then (now - {index})[index + 1 := now[index]] else now;
    assert Get(now, index) == Get(before, index) && Get(now, index + 1) == None;
    forall i: nat ensures Get(now', i) == PartlyShifted(before, index - 1, maxBackups, i) {
      assert Get(now, i) == PartlyShifted(before, index, maxBackups, i);
    }
  }

  lemma ShiftStart(before: map<nat, Bytes>, maxBackups: nat)
    requires maxBackups > 0 && forall i :: i in before ==> 1 <= i <= maxBackups
    ensures ShiftedAbove(before, before - {maxBackups}, maxBackups - 1, maxBackups)
  {
  }

  lemma ShiftDone(before: map<nat, Bytes>, now: map<nat, Bytes>, maxBackups: nat)
    requires ShiftedAbove(before, now, 0, maxBackups) && 0 !in before
    ensures now == Shifted(before, maxBackups)
  {
    var shifted := Shifted(before, maxBackups);
    forall i: nat ensures Get(now, i) == Get(shifted, i) {
      assert Get(now, i) == PartlyShifted(before, 0, maxBackups, i);
    }
    SameMap(now, shifted);
  }

  lemma SameMap(a: map<nat, Bytes>, b: map<nat, Bytes>)
    requires forall i: nat :: Get(a, i) == Get(b, i)
    ensures a == b
  {
    forall i: nat ensures i in a <==> i in b {
      assert Get(a, i) == Get(b, i);
    }
    forall i: nat | i in a ensures a[i] == b[i] {
      assert Get(a, i) == Get(b, i);
    }
  }

  class RotatingState {
    const config: Config
    var disk: Disk
    var currentSize: nat
    var compression: Thread
    /** The run this state is the end of. */
    ghost const start: Disk
    ghost var steps: seq<Step>

    ghost function State(): Sys
      reads this
    {
      Exec(config, start, steps)
    }

    ghost predicate At(pc: Pc)
      reads this
    {
      StartOk(config, start) && State().disk == disk && State().process == Up(pc, currentSize, compression)
    }

    /** Opens a directory that an earlier process left in any state a run can leave it in. */
    constructor (config: Config, disk: Disk, ghost start: Disk, ghost before: seq<Step>)
      requires StartOk(config, start)
      requires Exec(config, start, before).disk == disk && Exec(config, start, before).process.Down?
      ensures this.config == config && this.start == start && steps == before + [Restart]
      ensures At(Idle)
    {
      this.config := config;
      this.start := start;
      this.steps := before + [Restart];
      var found := Perform(disk, OpenActive);
      this.disk := found;
      this.currentSize := |Content(found.active)|;
      this.compression :=
        if config.compress && config.maxBackups > 0 && found.staging.Some? then Compressing else NoThread;
      new;
      ExecStep(config, start, before, Restart);
    }

    /** Records a step of the machine that the fields have already taken. */
    ghost method Took(step: Step, pc: Pc)
      requires StartOk(config, start)
      requires Apply(config, State(), step).disk == disk
      requires Apply(config, State(), step).process == Up(pc, currentSize, compression)
      modifies this`steps
      ensures At(pc) && State() == Apply(config, old(State()), step)
    {
      hide Exec, Apply;
      ExecStep(config, start, steps, step);
      steps := steps + [step];
    }

    method WaitForCompression(ghost pc: Pc)
      requires At(pc)
      modifies this
      ensures At(pc) && compression == NoThread && currentSize == old(currentSize)
      ensures disk == Joined(old(disk), old(compression))
      ensures State().written == old(State()).written && State().longest == old(State()).longest
    {
      hide Exec, PcOk;
      UpState(config, start, steps);
      if compression == Compressing {
        disk := Perform(disk, CompressAll);
        compression := Removing;
        Took(CompressRest, pc);
      }
      if compression == Removing {
        disk := Perform(disk, RemoveStaging);
        compression := NoThread;
        Took(FinishCompression, pc);
      }
    }

    /** The loop of `rotate_files`. */
    method ShiftBackups(ghost buf: Bytes, ghost before: map<nat, Bytes>)
      requires config.maxBackups > 0 && At(AfterOldest(config, buf)) && compression == NoThread
      requires ShiftedAbove(before, disk.slots, config.maxBackups - 1, config.maxBackups) && 0 !in before
      modifies this
      ensures At(Parking(buf)) && compression == NoThread
      ensures disk == old(disk).(slots := Shifted(before, config.maxBackups))
      ensures State().written == old(State()).written && State().longest == old(State()).longest
    {
      hide Exec, PcOk, ThreadOk, ShiftedAbove, Shifted;
      var index := config.maxBackups - 1;
      while index >= 1
        invariant 0 <= index < config.maxBackups && compression == NoThread
        invariant At(if index >= 1 then Shifting(index, buf) else Parking(buf))
        invariant disk == old(disk).(slots := disk.slots)
        invariant ShiftedAbove(before, disk.slots, index, config.maxBackups)
        invariant State().written == old(State()).written && State().longest == old(State()).longest
      {
        ShiftOne(before, disk.slots, index, config.maxBackups);
        if index in disk.slots {
          disk := Perform(disk, MoveSlot(index));
        }
        index := index - 1;
        Took(Foreground(0), if index >= 1 then Shifting(index, buf) else Parking(buf));
      }
      ShiftDone(before, disk.slots, config.maxBackups);
    }

    /** The active file becomes the newest backup, by way of the staging file when backups are compressed. */
    method ParkActiveFile(ghost buf: Bytes)
      requires config.maxBackups > 0 && At(Parking(buf)) && compression == NoThread
      modifies this
      ensures At(Opening(buf)) && compression == if config.compress then Compressing else NoThread
      ensures disk == Perform(old(disk), if config.compress then ParkActive else MoveActive)
      ensures State().written == old(State()).written && State().longest == old(State()).longest
    {
      hide Exec, View;
      UpState(config, start, steps);
      if config.compress {
        disk := Perform(disk, ParkActive);
        compression := Compressing;
      } else {
        disk := Perform(disk, MoveActive);
      }
      Took(Foreground(0), Opening(buf));
    }

    method RotateFiles(ghost buf: Bytes)
      requires At(Joining(buf))
      modifies this
      ensures At(Opening(buf))
      ensures disk == RotatedDisk(config, Joined(old(disk), old(compression)))
      ensures Rotated(config, old(disk), old(compression), disk, compression) && disk.active.None?
      ensures State().written == old(State()).written && State().longest == old(State()).longest
    {
      hide Exec, ShiftedAbove, Shifted, Rotated, Joined, PcOk, ThreadOk;
      JoiningState(config, start, steps, buf);
      WaitForCompression(Joining(buf));
      ghost var before := disk;
      SlotsInRange(config, start, steps);
      if config.maxBackups == 0 {
        Took(Foreground(0), Parking(buf));
        disk := Perform(disk, RemoveActive);
        Took(Foreground(0), Opening(buf));
        RotatedDiskIs(config, old(disk), old(compression), disk, compression);
        return;
      }
      Took(Foreground(0), RemovingOldest(buf));
      disk := Perform(disk, RemoveSlot(config.maxBackups));
      Took(Foreground(0), AfterOldest(config, buf));
      ShiftStart(before.slots, config.maxBackups);
      ShiftBackups(buf, before.slots);
      ParkActiveFile(buf);
      RotatedDiskIs(config, old(disk), old(compression), disk, compression);
    }

    /** `rotate` and the reopening of the path. */
    method Rotate(ghost buf: Bytes)
      requires At(Joining(buf))
      modifies this
      ensures At(Writing(buf)) && currentSize == 0
      ensures disk == RotatedDisk(config, Joined(old(disk), old(compression))).(active := Some([]))
      ensures Rotated(config, old(disk), old(compression), disk, compression)
      ensures State().written == old(State()).written && State().longest == old(State()).longest
    {
      hide Exec, RotatedDisk, Joined, PcOk, ThreadOk;
      RotateFiles(buf);
      disk := Perform(disk, OpenActive);
      currentSize := 0;
      Took(Foreground(0), Writing(buf));
    }

    /**
     `write`, of which the file accepts at most `accepted` bytes. Every intermediate disk is a state of the machine's
     run; a rotation moves every backup one number up and drops only the oldest.
     */
    method Write(buf: Bytes, accepted: nat) returns (count: nat)
      requires At(Idle)
      modifies this
      ensures At(Idle)
      ensures count == if accepted <= |buf| then accepted else |buf|
      ensures State().written == old(State()).written + buf[..count]
      ensures State().longest == Max(old(State()).longest, |buf|)
      ensures old(disk).active.Some? && disk.active.Some? && currentSize == |disk.active.value|
      ensures if !Exceeds(config, |old(disk).active.value|, |buf|)
              then disk == old(disk).(active := Some(old(disk).active.value + buf[..count]))
                   && compression == old(compression)
              else Rotated(config, old(disk), old(compression), disk, compression) && disk.active == Some(buf[..count])
    {
      hide Exec, RotatedDisk, Joined, PcOk, ThreadOk;
      IdleState(config, start, steps);
      if Rotates(config, currentSize, |buf|) {
        Took(Begin(buf), Joining(buf));
        Rotate(buf);
      } else {
        Took(Begin(buf), Writing(buf));
      }
      count := if accepted <= |buf| then accepted else |buf|;
      assert [] + buf[..count] == buf[..count];
      disk := Perform(disk, Append(buf[..count]));
      currentSize := currentSize + count;
      Took(Foreground(accepted), Idle);
    }
  }

  lemma SlotsInRange(c: Config, start: Disk, steps: seq<Step>)
    requires StartOk(c, start) && Exec(c, start, steps).process.Up? && Exec(c, start, steps).process.thread == NoThread
    ensures var s := Exec(c, start, steps);
      s.disk.staging.None? && forall i :: i in s.disk.slots ==> 1 <= i <= c.maxBackups
  {
    UpState(c, start, steps);
  }

  lemma IdleState(c: Config, start: Disk, steps: seq<Step>)
    requires StartOk(c, start) && Exec(c, start, steps).process.Up? && Exec(c, start, steps).process.pc.Idle?
    ensures var s := Exec(c, start, steps);
      s.disk.active.Some? && s.process.currentSize == |s.disk.active.value|
  {
    UpState(c, start, steps);
  }

  lemma JoiningState(c: Config, start: Disk, steps: seq<Step>, buf: Bytes)
    requires StartOk(c, start) && Exec(c, start, steps).process.Up? && Exec(c, start, steps).process.pc == Joining(buf)
    ensures var s := Exec(c, start, steps);
      s.disk.active.Some? && (s.process.thread == NoThread <==> s.disk.staging.None?) && StartOk(c, s.disk)
  {
    ExecKeepsInv(c, start, steps);
  }
}
