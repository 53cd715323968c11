/**
 Import of a MiniCA 1.0.x directory tree (src/legacy.rs) through the regular import calls (src/service.rs), with
 nobody else at the database while it runs. What openssl says about a set of files depends on the files alone.
 */
module LegacyImport {
  import opened Wrappers
  import opened CaTables
  import opened Texts

  /** The files an import reads, as one opaque value; unreadable ones are part of it. */
  type Files = string

  /** A subdirectory with CERT.complete or without. */
  datatype CertDir = CertDir(name: string, complete: bool, files: Files)

  /** A CA directory; its listing may fail. Directories come in the order `sorted_subdirs` gives. */
  datatype CaDir = CaDir(name: string, complete: bool, files: Files, listing: Option<seq<CertDir>>)

  /** Skipped and failed directories, by label. */
  datatype Report = Report(casImported: nat, certsImported: nat, skipped: seq<string>, failures: seq<string>)

  /** What the files say: the common name of an importable CA, and of a certificate the given CA has issued. */
  datatype World = World(readCa: Files -> Option<string>, readCert: (Files, CaSecrets) -> Option<string>)

  /**
   What is new in each run: the passwords drawn and the files made with them, the lock owner, and what the clock reads
   at each certificate directory.
   */
  datatype Draw = Draw(
    caSecrets: Files -> CaSecrets, certSecrets: Files -> CertSecrets, owner: OwnerId, clock: string -> int)

  // ----- the import calls -----

  function CertLabel(caId: string, name: string): string {
    "certificate " + caId + "/" + name
  }

  function CaLabel(name: string): string {
    "CA " + name
  }

  predicate IsIdChar(c: char) {
    'a' <= c <= 'z' || 'A' <= c <= 'Z' || '0' <= c <= '9' || c == '-' || c == '_' || c == '.'
  }

  function ValidateEntityId(id: string): Option<string> {
    var name := Trim(id);
    if name == "" || |name| > 64 || name[0] == '.' || !(forall i :: 0 <= i < |name| ==> IsIdChar(name[i])) then None
    else Some(name)
  }

  /** `import_ca_with_id`. */
  function ImportCa(t: Tables, w: World, draw: Draw, name: string, files: Files): Option<Tables> {
    var id :- ValidateEntityId(name);
    if id in t.cas then None
    else
      var commonName :- w.readCa(files);
      if CaNameExists(t, commonName) then None
      else
        match InsertCa(t, id, commonName, draw.caSecrets(files))
        case Err(_) => None
        case Ok(after) => Some(after)
  }

  /** `import_cert_with`: a failure after the lock was taken gives the lock back. */
  function ImportCert(t: Tables, w: World, draw: Draw, caId: CaId, name: string, files: Files): (r: (Tables, bool)) {
    var id := ValidateEntityId(name);
    if !ActiveCa(t, caId) || id.None? || id.value in t.certs then (t, false)
    else
      match AcquireCaLock(t, caId, draw.owner, draw.clock(CertLabel(caId, name)), 120_000)
      case Err(_) => (t, false)
      case Ok(locked) =>
        var commonName := w.readCert(files, locked.cas[caId].secrets);
        if commonName.None? || CertNameExists(locked, caId, commonName.value)
        then (ReleaseCaLock(locked, caId, draw.owner), false)
        else
          match InsertCertWithState(locked, id.value, caId, commonName.value, draw.certSecrets(files), None, draw.owner)
          case Err(_) => (ReleaseCaLock(locked, caId, draw.owner), false)
          case Ok(after) => (after, true)
  }

  // ----- the walk -----

  datatype State = State(tables: Tables, report: Report)

  function Skip(s: State, item: string): State {
    s.(report := s.report.(skipped := s.report.skipped + [item]))
  }

  function Fail(s: State, item: string): State {
    s.(report := s.report.(failures := s.report.failures + [item]))
  }

  function WalkCert(s: State, w: World, draw: Draw, caId: string, d: CertDir): State {
    if !d.complete then s
    else if d.name in s.tables.certs then Skip(s, CertLabel(caId, d.name))
    else
      var (after, ok) := ImportCert(s.tables, w, draw, caId, d.name, d.files);
      if ok then State(after, s.report.(certsImported := s.report.certsImported + 1))
      else Fail(s.(tables := after), CertLabel(caId, d.name))
  }

  function WalkCerts(s: State, w: World, draw: Draw, caId: string, dirs: seq<CertDir>): State {
    if dirs == [] then s
    else WalkCert(WalkCerts(s, w, draw, caId, dirs[..|dirs| - 1]), w, draw, caId, dirs[|dirs| - 1])
  }

  /** The CA itself, and whether its certificates are looked at. */
  function EnterCa(s: State, w: World, draw: Draw, d: CaDir): (State, bool) {
    if d.name in s.tables.cas then (Skip(s, CaLabel(d.name)), true)
    else
      match ImportCa(s.tables, w, draw, d.name, d.files)
      case None => (Fail(s, CaLabel(d.name)), false)
      case Some(after) => (State(after, s.report.(casImported := s.report.casImported + 1)), true)
  }

  function WalkCa(s: State, w: World, draw: Draw, d: CaDir): State {
    if !d.complete then s
    else
      var (entered, proceed) := EnterCa(s, w, draw, d);
      if !proceed then entered
      else if d.listing.None? then Fail(entered, CaLabel(d.name))
      else WalkCerts(entered, w, draw, d.name, d.listing.value)
  }

  function Walk(s: State, w: World, draw: Draw, dirs: seq<CaDir>): State {
    if dirs == [] then s else WalkCa(Walk(s, w, draw, dirs[..|dirs| - 1]), w, draw, dirs[|dirs| - 1])
  }

  const NOTHING := Report(0, 0, [], [])

  function ImportTree(t: Tables, w: World, draw: Draw, dirs: seq<CaDir>): State {
    Walk(State(t, NOTHING), w, draw, dirs)
  }

  /** What one certificate directory adds to the tables and to the report. */
  ghost predicate CertDirDone(s: State, s': State, w: World, draw: Draw, caId: string, d: CertDir) {
    var (item, r) := ("certificate " + caId + "/" + d.name, s.report);
    if !d.complete then s' == s
    else if d.name in s.tables.certs then s' == State(s.tables, r.(skipped := r.skipped + [item]))
    else
      var (after, ok) := ImportCert(s.tables, w, draw, caId, d.name, d.files);
      && s'.tables == after
      && s'.report == if ok then r.(certsImported := r.certsImported + 1) else r.(failures := r.failures + [item])
  }

  /** What is reported of a CA directory before its certificates are looked at, if they are. */
  ghost predicate CaDirEntered(s: State, s': State, proceed: bool, w: World, draw: Draw, d: CaDir) {
    var (item, r) := ("CA " + d.name, s.report);
    if d.name in s.tables.cas then proceed && s' == State(s.tables, r.(skipped := r.skipped + [item]))
    else
      match ImportCa(s.tables, w, draw, d.name, d.files)
      case None => !proceed && s' == State(s.tables, r.(failures := r.failures + [item]))
      case Some(after) => proceed && s' == State(after, r.(casImported := r.casImported + 1))
  }

  /** Certificate directories are done one after the other, in the order they are listed. */
  lemma {:induction false} CertDirsInOrder(s: State, w: World, draw: Draw, caId: string, dirs: seq<CertDir>)
    returns (states: seq<State>)
    ensures |states| == |dirs| + 1 && states[0] == s && states[|dirs|] == WalkCerts(s, w, draw, caId, dirs)
    ensures forall i :: 0 <= i < |dirs| ==> CertDirDone(states[i], states[i + 1], w, draw, caId, dirs[i])
  {
    hide CertDirDone, WalkCert;
    if dirs == [] {
      states := [s];
    } else {
      var init, last := dirs[..|dirs| - 1], dirs[|dirs| - 1];
      states := CertDirsInOrder(s, w, draw, caId, init);
      WalkCertIsDone(WalkCerts(s, w, draw, caId, init), w, draw, caId, last);
      states := states + [WalkCert(WalkCerts(s, w, draw, caId, init), w, draw, caId, last)];
    }
  }

  /** What one CA directory adds: the CA itself, and, if it is entered and listed, its certificates. */
  ghost predicate CaDirDone(s: State, s': State, w: World, draw: Draw, d: CaDir) {
    if !d.complete then s' == s
    else
      var (entered, proceed) := EnterCa(s, w, draw, d);
      && CaDirEntered(s, entered, proceed, w, draw, d)
      && s' == if !proceed then entered
               else if d.listing.None? then entered.(report := entered.report.(
                 failures := entered.report.failures + ["CA " + d.name]))
               else WalkCerts(entered, w, draw, d.name, d.listing.value)
  }

  lemma WalkCaIsDone(s: State, w: World, draw: Draw, d: CaDir)
    ensures CaDirDone(s, WalkCa(s, w, draw, d), w, draw, d)
  {
    hide ImportCa, WalkCerts;
  }

  lemma WalkCertIsDone(s: State, w: World, draw: Draw, caId: string, d: CertDir)
    ensures CertDirDone(s, WalkCert(s, w, draw, caId, d), w, draw, caId, d)
  {
    hide ImportCert;
  }

  /** CA directories are done one after the other, in the order of the tree. */
  lemma {:induction false} CaDirsInOrder(s: State, w: World, draw: Draw, dirs: seq<CaDir>) returns (states: seq<State>)
    ensures |states| == |dirs| + 1 && states[0] == s && states[|dirs|] == Walk(s, w, draw, dirs)
    ensures forall i :: 0 <= i < |dirs| ==> CaDirDone(states[i], states[i + 1], w, draw, dirs[i])
  {
    hide CaDirDone, WalkCa;
    if dirs == [] {
      states := [s];
    } else {
      var init, last := dirs[..|dirs| - 1], dirs[|dirs| - 1];
      states := CaDirsInOrder(s, w, draw, init);
      WalkCaIsDone(Walk(s, w, draw, init), w, draw, last);
      states := states + [WalkCa(Walk(s, w, draw, init), w, draw, last)];
    }
  }

  class Importer {
    var tables: Tables
    var casImported: nat
    var certsImported: nat
    var skipped: seq<string>
    var failures: seq<string>

    ghost function Now(): State
      reads this
    {
      State(tables, Report(casImported, certsImported, skipped, failures))
    }

    constructor (tables: Tables)
      ensures Now() == State(tables, NOTHING)
    {
      this.tables := tables;
      casImported, certsImported, skipped, failures := 0, 0, [], [];
    }

    method ImportCertDir(w: World, draw: Draw, caId: string, d: CertDir)
      requires d.complete
      modifies this
      ensures Now() == WalkCert(old(Now()), w, draw, caId, d)
      ensures CertDirDone(old(Now()), Now(), w, draw, caId, d)
    {
      hide ImportCert;
      var item := CertLabel(caId, d.name);
      if d.name in tables.certs {
        skipped := skipped + [item];
        return;
      }
      var (after, ok) := ImportCert(tables, w, draw, caId, d.name, d.files);
      tables := after;
      if ok {
        certsImported := certsImported + 1;
      } else {
        failures := failures + [item];
      }
    }

    method ImportCaDir(w: World, draw: Draw, d: CaDir) returns (ghost entered: State, ghost proceed: bool)
      requires d.complete
      modifies this
      ensures Now() == WalkCa(old(Now()), w, draw, d)
      ensures CaDirEntered(old(Now()), entered, proceed, w, draw, d)
      ensures Now() ==
              if !proceed then entered
              else if d.listing.None? then entered.(report := entered.report.(
                failures := entered.report.failures + ["CA " + d.name]))
              else WalkCerts(entered, w, draw, d.name, d.listing.value)
    {
      hide ImportCa, WalkCert;
      var item := CaLabel(d.name);
      if d.name in tables.cas {
        skipped := skipped + [item];
      } else {
        var outcome := ImportCa(tables, w, draw, d.name, d.files);
        if outcome.None? {
          failures := failures + [item];
          entered, proceed := Now(), false;
          return;
        }
        tables := outcome.value;
        casImported := casImported + 1;
      }
      entered, proceed := Now(), true;
      if d.listing.None? {
        failures := failures + [item];
        return;
      }
      var dirs := d.listing.value;
      for i := 0 to |dirs|
        invariant Now() == WalkCerts(entered, w, draw, d.name, dirs[..i])
      {
        assert dirs[..i + 1][..i] == dirs[..i];
        if dirs[i].complete {
          ImportCertDir(w, draw, d.name, dirs[i]);
        } else {
          NotComplete(Now(), w, draw, d.name, dirs[i]);
        }
      }
      assert dirs[..|dirs|] == dirs;
    }

    method ImportAll(w: World, draw: Draw, dirs: seq<CaDir>)
      modifies this
      ensures Now() == Walk(old(Now()), w, draw, dirs)
    {
      hide EnterCa, WalkCerts;
      for i := 0 to |dirs|
        invariant Now() == Walk(old(Now()), w, draw, dirs[..i])
      {
        assert dirs[..i + 1][..i] == dirs[..i];
        if dirs[i].complete {
          ghost var _, _ := ImportCaDir(w, draw, dirs[i]);
        }
      }
      assert dirs[..|dirs|] == dirs;
    }
  }

  lemma NotComplete(s: State, w: World, draw: Draw, caId: string, d: CertDir)
    requires !d.complete
    ensures WalkCert(s, w, draw, caId, d) == s
  {
  }

  // ----- an import only adds -----

  /** Rows stay as they are, and so does what is read of a CA. */
  ghost predicate Kept(a: Tables, b: Tables) {
    && (forall k :: k in a.cas ==> k in b.cas && b.cas[k] == a.cas[k])
    && (forall k :: k in a.certs ==> k in b.certs && b.certs[k] == a.certs[k])
  }

  /** Only lock rows that were there before are there. */
  ghost predicate NoNewLock(a: Tables, b: Tables) {
    forall k :: k in b.locks ==> k in a.locks && b.locks[k] == a.locks[k]
  }

  ghost predicate Grew(a: Tables, b: Tables) {
    Kept(a, b) && NoNewLock(a, b)
  }

  predicate SameRows(a: Tables, b: Tables) {
    a.cas == b.cas && a.certs == b.certs
  }

  lemma KeptTrans(a: Tables, b: Tables, c: Tables)
    requires Kept(a, b) && Kept(b, c)
    ensures Kept(a, c)
  {
  }

  lemma GrewTrans(a: Tables, b: Tables, c: Tables)
    requires Grew(a, b) && Grew(b, c)
    ensures Grew(a, c)
  {
  }

  lemma ImportCaKeeps(t: Tables, w: World, draw: Draw, name: string, files: Files)
    requires ImportCa(t, w, draw, name, files).Some?
    ensures Grew(t, ImportCa(t, w, draw, name, files).value)
  {
    hide ValidateEntityId, CaNameExists;
  }

  /** The call leaves no lock of its own, and on failure no row. */
  lemma ImportCertKeeps(t: Tables, w: World, draw: Draw, caId: string, name: string, files: Files)
    ensures var (after, ok) := ImportCert(t, w, draw, caId, name, files);
      Grew(t, after) && (!ok ==> SameRows(after, t))
  {
    hide ValidateEntityId, CertNameExists, CertLabel, AcquireCaLock, InsertCertWithState, ReleaseCaLock;
    var now := draw.clock(CertLabel(caId, name));
    if AcquireCaLock(t, caId, draw.owner, now, 120_000).Ok? {
      var locked := LockTaken(t, caId, draw.owner, now);
      LockGivenBack(t, locked, caId, draw.owner);
      forall id, commonName, secrets {
        CertEntered(t, locked, id, caId, commonName, secrets, draw.owner);
      }
    }
  }

  /** The tables while the import holds the lock: the rows as before, and no lock of anybody else's that is new. */
  ghost predicate LockedFrom(t: Tables, locked: Tables, caId: CaId, owner: OwnerId) {
    && SameRows(locked, t) && caId in locked.locks && locked.locks[caId].owner == owner
    && forall k :: k in locked.locks && k != caId ==> k in t.locks && locked.locks[k] == t.locks[k]
  }

  lemma LockTaken(t: Tables, caId: CaId, owner: OwnerId, now: int) returns (locked: Tables)
    requires AcquireCaLock(t, caId, owner, now, 120_000).Ok?
    ensures locked == AcquireCaLock(t, caId, owner, now, 120_000).value && LockedFrom(t, locked, caId, owner)
  {
    locked := AcquireCaLock(t, caId, owner, now, 120_000).value;
  }

  lemma LockGivenBack(t: Tables, locked: Tables, caId: CaId, owner: OwnerId)
    requires LockedFrom(t, locked, caId, owner)
    ensures Grew(t, ReleaseCaLock(locked, caId, owner)) && SameRows(ReleaseCaLock(locked, caId, owner), t)
  {
  }

  lemma CertEntered(t: Tables, locked: Tables, id: CertId, caId: CaId, commonName: string, secrets: CertSecrets,
                    owner: OwnerId)
    requires LockedFrom(t, locked, caId, owner)
    ensures var r := InsertCertWithState(locked, id, caId, commonName, secrets, None, owner);
      r.Ok? ==> Grew(t, r.value)
  {
    hide CertNameTaken;
  }

  lemma {:induction false} WalkCertsKeeps(s: State, w: World, draw: Draw, caId: string, dirs: seq<CertDir>)
    ensures Grew(s.tables, WalkCerts(s, w, draw, caId, dirs).tables)
  {
    hide ImportCert;
    if dirs != [] {
      var (init, last) := (dirs[..|dirs| - 1], dirs[|dirs| - 1]);
      WalkCertsKeeps(s, w, draw, caId, init);
      var before := WalkCerts(s, w, draw, caId, init);
      ImportCertKeeps(before.tables, w, draw, caId, last.name, last.files);
      GrewTrans(s.tables, before.tables, WalkCert(before, w, draw, caId, last).tables);
    }
  }

  lemma WalkCaKeeps(s: State, w: World, draw: Draw, d: CaDir)
    ensures Grew(s.tables, WalkCa(s, w, draw, d).tables)
  {
    hide ImportCa, WalkCerts;
    EnterCaKeeps(s, w, draw, d);
    var entered := EnterCa(s, w, draw, d).0;
    if d.listing.Some? {
      WalkCertsKeeps(entered, w, draw, d.name, d.listing.value);
      GrewTrans(s.tables, entered.tables, WalkCerts(entered, w, draw, d.name, d.listing.value).tables);
    }
  }

  lemma EnterCaKeeps(s: State, w: World, draw: Draw, d: CaDir)
    ensures Grew(s.tables, EnterCa(s, w, draw, d).0.tables)
  {
    hide ImportCa;
    if ImportCa(s.tables, w, draw, d.name, d.files).Some? {
      ImportCaKeeps(s.tables, w, draw, d.name, d.files);
    }
  }

  // ----- what failed fails again -----

  /** A directory whose CA import fails fails against every larger database too. */
  lemma FailedCaFails(t: Tables, t': Tables, w: World, draw: Draw, draw': Draw, name: string, files: Files)
    requires ImportCa(t, w, draw, name, files).None? && Kept(t, t')
    ensures ImportCa(t', w, draw', name, files).None?
  {
    hide ValidateEntityId, FoldName, Trim, Lower;
  }

  /** One that succeeded finds its id taken. */
  lemma ImportedCaFails(t: Tables, t': Tables, w: World, draw: Draw, draw': Draw, name: string, files: Files)
    requires ImportCa(t, w, draw, name, files).Some? && Kept(ImportCa(t, w, draw, name, files).value, t')
    ensures ImportCa(t', w, draw', name, files).None?
  {
    hide ValidateEntityId, CaNameExists;
  }

  /** The directory is looked at while its CA has a lock row that has not expired. */
  predicate MeetsLock(t: Tables, draw: Draw, caId: string, d: CertDir) {
    d.complete && caId in t.locks && t.locks[caId].expiresAt >= draw.clock(CertLabel(caId, d.name))
  }

  /** When exactly a CA import succeeds, and that it adds one row, made from that directory's files. */
  lemma ImportCaVerdict(t: Tables, w: World, draw: Draw, name: string, files: Files)
    ensures var (id, commonName) := (ValidateEntityId(name), w.readCa(files));
      var r := ImportCa(t, w, draw, name, files);
      && (r.Some? <==> id.Some? && id.value !in t.cas && commonName.Some? && !CaNameExists(t, commonName.value))
      && (r.Some? ==> r.value == t.(
            cas := t.cas[id.value := CaRow(commonName.value, draw.caSecrets(files), NoTruststore, false)]))
  {
    hide ValidateEntityId, CaNameExists;
  }

  /** When exactly a certificate import succeeds, and that it adds one row, made from that directory's files. */
  lemma ImportCertVerdict(t: Tables, w: World, draw: Draw, caId: string, name: string, files: Files)
    ensures var id := ValidateEntityId(name);
      var (after, ok) := ImportCert(t, w, draw, caId, name, files);
      && (ok <==>
            && ActiveCa(t, caId) && id.Some? && id.value !in t.certs
            && !(caId in t.locks && t.locks[caId].expiresAt >= draw.clock(CertLabel(caId, name)))
            && var commonName := w.readCert(files, t.cas[caId].secrets);
               commonName.Some? && !CertNameExists(t, caId, commonName.value))
      && (ok ==> after.cas == t.cas && after.certs == t.certs[id.value := CertRow(
            caId, w.readCert(files, t.cas[caId].secrets).value, draw.certSecrets(files), false, None, None)])
      && (!ok ==> after.cas == t.cas && after.certs == t.certs)
      && (caId !in after.locks || after == t)
  {
    hide ValidateEntityId, FoldName, Trim, Lower, CertLabel;
  }

  /** A certificate import that met no lock, failed or not, fails against every larger database. */
  lemma CertFailsAgain(t: Tables, t': Tables, w: World, draw: Draw, draw': Draw, caId: string, d: CertDir)
    requires d.complete && !MeetsLock(t, draw, caId, d) && caId in t.cas
    requires Kept(ImportCert(t, w, draw, caId, d.name, d.files).0, t')
    ensures var (after, ok) := ImportCert(t', w, draw', caId, d.name, d.files);
      !ok && SameRows(after, t')
  {
    hide ImportCert, ValidateEntityId, FoldName, Trim, Lower, CertLabel;
    ImportCertKeeps(t, w, draw, caId, d.name, d.files);
    ImportCertKeeps(t', w, draw', caId, d.name, d.files);
    KeptTrans(t, ImportCert(t, w, draw, caId, d.name, d.files).0, t');
    ImportCertVerdict(t, w, draw, caId, d.name, d.files);
    ImportCertVerdict(t', w, draw', caId, d.name, d.files);
  }

  // ----- running the import again -----

  /**
   A CA directory and a later one whose name, once trimmed, is the earlier one's. The later CA is stored under the
   trimmed id, which the next run takes for the earlier directory's CA.
   */
  ghost predicate LateTwin(names: seq<string>, i: nat, j: nat) {
    i < j < |names| && ValidateEntityId(names[j]) == Some(names[i])
  }

  function Names(dirs: seq<CaDir>): (r: seq<string>)
    ensures |r| == |dirs|
  {
    seq(|dirs|, i requires 0 <= i < |dirs| => dirs[i].name)
  }

  /** No row changes, and only skips and failures are reported. */
  ghost predicate Idle(s: State, s': State) {
    && SameRows(s'.tables, s.tables) && s'.report.casImported == s.report.casImported
    && s'.report.certsImported == s.report.certsImported
  }

  lemma CertAgain(s: State, u: State, w: World, draw: Draw, draw': Draw, caId: string, d: CertDir)
    requires caId in s.tables.cas && !MeetsLock(s.tables, draw, caId, d)
    requires Kept(WalkCert(s, w, draw, caId, d).tables, u.tables)
    ensures Idle(u, WalkCert(u, w, draw', caId, d))
  {
    hide ImportCert;
    if d.complete && d.name !in u.tables.certs {
      CertFailsAgain(s.tables, u.tables, w, draw, draw', caId, d);
    }
  }

  lemma {:induction false} CertsAgain(s: State, u: State, w: World, draw: Draw, draw': Draw, caId: string,
                                      dirs: seq<CertDir>)
    requires caId in s.tables.cas && forall i :: 0 <= i < |dirs| ==> !MeetsLock(s.tables, draw, caId, dirs[i])
    requires Kept(WalkCerts(s, w, draw, caId, dirs).tables, u.tables)
    ensures Idle(u, WalkCerts(u, w, draw', caId, dirs))
  {
    hide WalkCert;
    if dirs != [] {
      var (init, last) := (dirs[..|dirs| - 1], dirs[|dirs| - 1]);
      WalkCertsKeeps(s, w, draw, caId, init);
      var before := WalkCerts(s, w, draw, caId, init);
      WalkCertKeeps(before, w, draw, caId, last);
      KeptTrans(before.tables, WalkCert(before, w, draw, caId, last).tables, u.tables);
      CertsAgain(s, u, w, draw, draw', caId, init);
      CertAgain(before, WalkCerts(u, w, draw', caId, init), w, draw, draw', caId, last);
    }
  }

  lemma WalkCertKeeps(s: State, w: World, draw: Draw, caId: string, d: CertDir)
    ensures Grew(s.tables, WalkCert(s, w, draw, caId, d).tables)
  {
    hide ImportCert;
    ImportCertKeeps(s.tables, w, draw, caId, d.name, d.files);
  }

  /** Some certificate directory of this CA is looked at under a lock left by somebody else. */
  ghost predicate LockedOut(t: Tables, draw: Draw, d: CaDir) {
    && d.complete && d.listing.Some?
    && exists j :: 0 <= j < |d.listing.value| && MeetsLock(t, draw, d.name, d.listing.value[j])
  }

  lemma CaAgain(s: State, u: State, w: World, draw: Draw, draw': Draw, d: CaDir)
    requires !LockedOut(s.tables, draw, d)
    requires Kept(WalkCa(s, w, draw, d).tables, u.tables)
    requires d.name in u.tables.cas ==> d.name in WalkCa(s, w, draw, d).tables.cas
    ensures Idle(u, WalkCa(u, w, draw', d))
  {
    hide ImportCa, WalkCerts, MeetsLock;
    if d.complete {
      WalkCaKeeps(s, w, draw, d);
      KeptTrans(s.tables, WalkCa(s, w, draw, d).tables, u.tables);
      var (entered, proceed) := EnterCa(s, w, draw, d);
      EnterCaKeeps(s, w, draw, d);
      if proceed && d.listing.Some? {
        WalkCertsKeeps(entered, w, draw, d.name, d.listing.value);
        WalkCertsAddNoCa(entered, w, draw, d.name, d.listing.value);
        KeptTrans(entered.tables, WalkCerts(entered, w, draw, d.name, d.listing.value).tables, u.tables);
      }
      if d.name in u.tables.cas {
        if d.listing.Some? && proceed {
          forall j | 0 <= j < |d.listing.value| ensures !MeetsLock(entered.tables, draw, d.name, d.listing.value[j]) {
            LocksStayFree(s.tables, entered.tables, draw, d.name, d.listing.value[j]);
          }
          CertsAgain(entered, Skip(u, CaLabel(d.name)), w, draw, draw', d.name, d.listing.value);
        }
      } else {
        CaFailsAgain(s, u.tables, w, draw, draw', d);
      }
    }
  }

  lemma LocksStayFree(a: Tables, b: Tables, draw: Draw, caId: string, d: CertDir)
    requires NoNewLock(a, b) && !MeetsLock(a, draw, caId, d)
    ensures !MeetsLock(b, draw, caId, d)
  {
  }

  lemma CaFailsAgain(s: State, end: Tables, w: World, draw: Draw, draw': Draw, d: CaDir)
    requires Kept(EnterCa(s, w, draw, d).0.tables, end) && Kept(s.tables, end) && d.name !in end.cas
    ensures ImportCa(end, w, draw', d.name, d.files).None?
  {
    hide ImportCa;
    if ImportCa(s.tables, w, draw, d.name, d.files).None? {
      FailedCaFails(s.tables, end, w, draw, draw', d.name, d.files);
    } else {
      ImportedCaFails(s.tables, end, w, draw, draw', d.name, d.files);
    }
  }

  lemma ImportCertAddsNoCa(t: Tables, w: World, draw: Draw, caId: string, name: string, files: Files)
    ensures ImportCert(t, w, draw, caId, name, files).0.cas.Keys == t.cas.Keys
  {
    hide ValidateEntityId, CertNameExists;
  }

  lemma {:induction false} WalkCertsAddNoCa(s: State, w: World, draw: Draw, caId: string, dirs: seq<CertDir>)
    ensures WalkCerts(s, w, draw, caId, dirs).tables.cas.Keys == s.tables.cas.Keys
  {
    hide ImportCert;
    if dirs != [] {
      var (init, last) := (dirs[..|dirs| - 1], dirs[|dirs| - 1]);
      WalkCertsAddNoCa(s, w, draw, caId, init);
      ImportCertAddsNoCa(WalkCerts(s, w, draw, caId, init).tables, w, draw, caId, last.name, last.files);
    }
  }

  /** A CA directory adds at most the CA of its trimmed name. */
  lemma WalkCaAdds(s: State, w: World, draw: Draw, d: CaDir, id: string)
    requires id in WalkCa(s, w, draw, d).tables.cas && id !in s.tables.cas
    ensures ValidateEntityId(d.name) == Some(id)
  {
    hide WalkCerts, ValidateEntityId, CaNameExists;
    var entered := EnterCa(s, w, draw, d).0;
    if d.complete && d.listing.Some? {
      WalkCertsAddNoCa(entered, w, draw, d.name, d.listing.value);
    }
  }

  lemma {:induction false} NobodyAdds(s: State, w: World, draw: Draw, dirs: seq<CaDir>, id: string)
    requires id !in s.tables.cas
    requires forall i :: 0 <= i < |dirs| ==> ValidateEntityId(dirs[i].name) != Some(id)
    ensures id !in Walk(s, w, draw, dirs).tables.cas
  {
    hide WalkCa, ValidateEntityId;
    if dirs != [] {
      var (init, last) := (dirs[..|dirs| - 1], dirs[|dirs| - 1]);
      NobodyAdds(s, w, draw, init, id);
      if id in WalkCa(Walk(s, w, draw, init), w, draw, last).tables.cas {
        WalkCaAdds(Walk(s, w, draw, init), w, draw, last, id);
      }
    }
  }

  lemma {:induction false} WalkKeeps(s: State, w: World, draw: Draw, dirs: seq<CaDir>)
    ensures Grew(s.tables, Walk(s, w, draw, dirs).tables)
  {
    hide WalkCa;
    if dirs != [] {
      var (init, last) := (dirs[..|dirs| - 1], dirs[|dirs| - 1]);
      WalkKeeps(s, w, draw, init);
      WalkCaKeeps(Walk(s, w, draw, init), w, draw, last);
      GrewTrans(s.tables, Walk(s, w, draw, init).tables, Walk(s, w, draw, dirs).tables);
    }
  }

  /** Walking the first directories and then the rest. */
  lemma {:induction false} WalkSplit(s: State, w: World, draw: Draw, a: seq<CaDir>, b: seq<CaDir>)
    ensures Walk(s, w, draw, a + b) == Walk(Walk(s, w, draw, a), w, draw, b)
    decreases |b|
  {
    hide WalkCa;
    if b == [] {
      assert a + b == a;
    } else {
      WalkSplit(s, w, draw, a, b[..|b| - 1]);
      assert (a + b)[..|a + b| - 1] == a + b[..|b| - 1];
    }
  }

  lemma StaysUnlocked(a: Tables, b: Tables, draw: Draw, d: CaDir)
    requires NoNewLock(a, b) && !LockedOut(a, draw, d)
    ensures !LockedOut(b, draw, d)
  {
    if d.complete && d.listing.Some? {
      forall j | 0 <= j < |d.listing.value| ensures !MeetsLock(b, draw, d.name, d.listing.value[j]) {
        LocksStayFree(a, b, draw, d.name, d.listing.value[j]);
      }
    }
  }

  lemma {:induction false} PrefixAgain(t: Tables, w: World, draw: Draw, draw': Draw, dirs: seq<CaDir>, n: nat)
    requires n <= |dirs| && forall i, j :: !LateTwin(Names(dirs), i, j)
    requires forall i :: 0 <= i < |dirs| ==> !LockedOut(t, draw, dirs[i])
    ensures var again := State(ImportTree(t, w, draw, dirs).tables, NOTHING);
      Idle(again, Walk(again, w, draw', dirs[..n]))
  {
    hide WalkCa, ValidateEntityId, LockedOut;
    var start := State(t, NOTHING);
    var end := ImportTree(t, w, draw, dirs).tables;
    if n > 0 {
      PrefixAgain(t, w, draw, draw', dirs, n - 1);
      var (d, rest) := (dirs[n - 1], dirs[n..]);
      var before := Walk(start, w, draw, dirs[..n - 1]);
      var after := Walk(start, w, draw, dirs[..n]);
      assert dirs[..n][..n - 1] == dirs[..n - 1] && after == WalkCa(before, w, draw, d);
      assert dirs == dirs[..n] + rest;
      WalkSplit(start, w, draw, dirs[..n], rest);
      WalkKeeps(start, w, draw, dirs[..n - 1]);
      WalkKeeps(after, w, draw, rest);
      StaysUnlocked(t, before.tables, draw, d);
      if d.name !in after.tables.cas {
        forall i | 0 <= i < |rest| ensures ValidateEntityId(rest[i].name) != Some(d.name) {
          assert !LateTwin(Names(dirs), n - 1, n + i);
        }
        NobodyAdds(after, w, draw, rest, d.name);
      }
      CaAgain(before, Walk(State(end, NOTHING), w, draw', dirs[..n - 1]), w, draw, draw', d);
    }
  }

  /**
   The import is idempotent for every database, every tree without late twins and whatever each run draws, when no
   certificate directory was looked at under an unexpired lock: a second run changes no row and reports no import.
   */
  lemma SecondRunIsIdle(t: Tables, w: World, draw: Draw, draw': Draw, dirs: seq<CaDir>)
    requires forall i, j :: !LateTwin(Names(dirs), i, j)
    requires forall i :: 0 <= i < |dirs| ==> !LockedOut(t, draw, dirs[i])
    ensures var first := ImportTree(t, w, draw, dirs);
      var second := ImportTree(first.tables, w, draw', dirs);
      && second.tables.cas == first.tables.cas && second.tables.certs == first.tables.certs
      && second.report.casImported == 0 && second.report.certsImported == 0
  {
    hide WalkCa, ValidateEntityId, LockedOut;
    PrefixAgain(t, w, draw, draw', dirs, |dirs|);
    assert dirs[..|dirs|] == dirs;
  }

  lemma {:induction false} NothingComplete(s: State, w: World, draw: Draw, dirs: seq<CaDir>)
    requires forall i :: 0 <= i < |dirs| ==> !dirs[i].complete
    ensures Walk(s, w, draw, dirs) == s
  {
    if dirs != [] {
      NothingComplete(s, w, draw, dirs[..|dirs| - 1]);
    }
  }

  /** Only two directories are complete. */
  lemma TwoComplete(s: State, w: World, draw: Draw, dirs: seq<CaDir>, i: nat, j: nat)
    requires i < j < |dirs| && forall k :: 0 <= k < |dirs| && k != i && k != j ==> !dirs[k].complete
    ensures Walk(s, w, draw, dirs) == WalkCa(WalkCa(s, w, draw, dirs[i]), w, draw, dirs[j])
  {
    hide WalkCa;
    WalkSplit(s, w, draw, dirs[..j + 1], dirs[j + 1..]);
    assert dirs == dirs[..j + 1] + dirs[j + 1..];
    NothingComplete(Walk(s, w, draw, dirs[..j + 1]), w, draw, dirs[j + 1..]);
    assert dirs[..j + 1][..j] == dirs[..j];
    WalkSplit(s, w, draw, dirs[..i + 1], dirs[i + 1..j]);
    assert dirs[..j] == dirs[..i + 1] + dirs[i + 1..j];
    NothingComplete(Walk(s, w, draw, dirs[..i + 1]), w, draw, dirs[i + 1..j]);
    assert dirs[..i + 1][..i] == dirs[..i];
    NothingComplete(s, w, draw, dirs[..i]);
  }

  const EMPTY := Tables(map[], map[], map[])

  lemma LeafIsId()
    ensures ValidateEntityId("leaf") == Some("leaf")
  {
    AlreadyTrimmed("leaf");
  }

  /** The leaf of the earlier twin, imported under the later twin's CA. */
  lemma LeafIsImported(t: Tables, w: World, draw: Draw, id: string, dirs: seq<CertDir>, r: Report)
    requires !MeetsLock(t, draw, id, CertDir("leaf", true, "leaf")) && t.certs == map[] && ActiveCa(t, id)
    requires dirs == [CertDir("leaf", true, "leaf")] && w.readCert("leaf", t.cas[id].secrets).Some?
    ensures var after := WalkCerts(State(t, r), w, draw, id, dirs);
      after.report.certsImported == r.certsImported + 1 && after.tables.cas == t.cas
  {
    hide ValidateEntityId, CertLabel;
    LeafIsId();
    assert dirs[..0] == [];
    assert WalkCerts(State(t, r), w, draw, id, []) == State(t, r);
  }

  /** For any names with a late twin there is a tree on which a second run imports a certificate. */
  lemma TwinBreaksIdempotence(names: seq<string>, i: nat, j: nat, draw: Draw, draw': Draw)
    returns (w: World, dirs: seq<CaDir>)
    requires LateTwin(names, i, j) && names[i] != names[j]
    ensures Names(dirs) == names
    ensures ImportTree(ImportTree(EMPTY, w, draw, dirs).tables, w, draw', dirs).report.certsImported == 1
  {
    hide ValidateEntityId;
    w := World(f => if f == "good" then Some("Root") else None, (f, s) => Some("leaf"));
    var leaf := [CertDir("leaf", true, "leaf")];
    dirs := seq(|names|, k requires 0 <= k < |names| =>
      CaDir(names[k], k == i || k == j, if k == j then "good" else "bad", Some(if k == i then leaf else [])));
    assert Names(dirs) == names;
    var start := State(EMPTY, NOTHING);
    TwoComplete(start, w, draw, dirs, i, j);
    var bad := WalkCa(start, w, draw, dirs[i]);
    assert bad.tables == EMPTY;
    assert !CaNameExists(EMPTY, "Root");
    var first := WalkCa(bad, w, draw, dirs[j]);
    assert first.tables.cas.Keys == {names[i]} && first.tables.certs == map[] && first.tables.locks == map[];
    var again := State(first.tables, NOTHING);
    TwoComplete(again, w, draw', dirs, i, j);
    LeafIsImported(first.tables, w, draw', names[i], leaf, Skip(again, CaLabel(names[i])).report);
    var late := WalkCa(again, w, draw', dirs[i]);
    assert late.report.certsImported == 1 && names[i] in late.tables.cas && names[j] !in late.tables.cas;
    assert WalkCa(late, w, draw', dirs[j]).report.certsImported == 1;
  }

  lemma OneComplete(s: State, w: World, draw: Draw, dirs: seq<CaDir>, i: nat)
    requires i < |dirs| && forall k :: 0 <= k < |dirs| && k != i ==> !dirs[k].complete
    ensures Walk(s, w, draw, dirs) == WalkCa(s, w, draw, dirs[i])
  {
    hide WalkCa;
    WalkSplit(s, w, draw, dirs[..i + 1], dirs[i + 1..]);
    assert dirs == dirs[..i + 1] + dirs[i + 1..];
    NothingComplete(Walk(s, w, draw, dirs[..i + 1]), w, draw, dirs[i + 1..]);
    assert dirs[..i + 1][..i] == dirs[..i];
    NothingComplete(s, w, draw, dirs[..i]);
  }

  /** While the lock row has not expired, the leaf is refused and nothing changes. */
  lemma LeafIsRefused(t: Tables, w: World, draw: Draw, id: string, dirs: seq<CertDir>, r: Report)
    requires dirs == [CertDir("leaf", true, "leaf")] && MeetsLock(t, draw, id, dirs[0])
    requires t.certs == map[] && ActiveCa(t, id)
    ensures WalkCerts(State(t, r), w, draw, id, dirs).tables == t
  {
    hide ValidateEntityId, CertLabel;
    LeafIsId();
    assert dirs[..0] == [];
    assert WalkCerts(State(t, r), w, draw, id, []) == State(t, r);
  }

  /**
   For any names and any lock row left on one of them, live in the first run and expired in the second, there is a
   database and a tree on which the second run imports a certificate.
   */
  lemma LockBreaksIdempotence(names: seq<string>, i: nat, lock: LockRow, secrets: CaSecrets, draw: Draw, draw': Draw)
    returns (t: Tables, w: World, dirs: seq<CaDir>)
    requires i < |names|
    requires draw.clock(CertLabel(names[i], "leaf")) <= lock.expiresAt < draw'.clock(CertLabel(names[i], "leaf"))
    ensures Names(dirs) == names && t.locks == map[names[i] := lock]
    ensures ImportTree(ImportTree(t, w, draw, dirs).tables, w, draw', dirs).report.certsImported == 1
  {
    hide ValidateEntityId, CertLabel;
    w := World(f => None, (f, s) => Some("leaf"));
    t := Tables(map[names[i] := CaRow("Root", secrets, NoTruststore, false)], map[], map[names[i] := lock]);
    var leaf := [CertDir("leaf", true, "leaf")];
    dirs := seq(|names|, k requires 0 <= k < |names| => CaDir(names[k], k == i, "", Some(leaf)));
    assert Names(dirs) == names;
    var start := State(t, NOTHING);
    OneComplete(start, w, draw, dirs, i);
    LeafIsRefused(t, w, draw, names[i], leaf, Skip(start, CaLabel(names[i])).report);
    OneComplete(start, w, draw', dirs, i);
    LeafIsImported(t, w, draw', names[i], leaf, Skip(start, CaLabel(names[i])).report);
  }
}
