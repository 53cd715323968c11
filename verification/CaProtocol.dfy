/**
 The signing protocol of src/service.rs as a transition system. A step is one transaction or one read of
 src/db.rs; a run is any sequence of steps, so every interleaving of workers, unlocked operations and clock
 values is a run. A worker is one service call from the moment it acquires the CA's lock row; everything the
 external openssl command invents (keys, certificate bodies, PKCS#12 files) is a parameter of the step.
 */
module CaProtocol {
  import opened Wrappers
  import opened CaTables

  const LOCK_TTL_MS := 120_000

  datatype Call =
    | Issue(certId: CertId, commonName: string)
    | Import(certId: CertId, commonName: string)
    | Renew(certId: CertId)
    | Revoke(certId: CertId, reason: string)
    | RenewCa

  /** How far a call is, with the values it has read since it acquired the lock. */
  datatype Phase =
    | Locked
    | Unrevoked
    | GotCa(ca: CaSecrets)
    | GotCert(ca: CaSecrets, cert: CertSecrets)
    | GotCerts(ca: CaSecrets, certs: map<CertId, CertSecrets>)
    | Finished

  datatype Worker = Worker(caId: CaId, call: Call, phase: Phase)

  datatype Issuance = Issuance(serial: nat, subject: string)

  /**
   What happened to the stored rows so far; the program does not keep this. Per CA, the serials committed by
   issue and renew and the CRL numbers published; per certificate row, its issuances.
   */
  datatype History = History(
    issued: map<CaId, seq<nat>>, published: map<CaId, seq<nat>>, rows: map<CertId, seq<Issuance>>)
  {
    function Issued(ca: CaId): seq<nat> { if ca in issued then issued[ca] else [] }
    function Published(ca: CaId): seq<nat> { if ca in published then published[ca] else [] }
    function Row(cert: CertId): seq<Issuance> { if cert in rows then rows[cert] else [] }

    function AddIssuance(ca: CaId, cert: CertId, leaf: Leaf): History {
      this.(issued := issued[ca := Issued(ca) + [leaf.serial]],
            rows := rows[cert := Row(cert) + [Issuance(leaf.serial, leaf.subject)]])
    }

    function AddCrl(ca: CaId, number: nat): History {
      this.(published := published[ca := Published(ca) + [number]])
    }
  }

  datatype Snapshot = Snapshot(cas: map<CaId, CaRow>, certs: map<CertId, CertRow>, history: History)

  datatype Sys = Sys(db: Tables, workers: map<OwnerId, Worker>, history: History, backups: set<Snapshot>)

  /** What a worker can do next; a move that does not fit its call and phase does nothing. */
  datatype Move =
    | CheckUnrevoked
    | ReadCa
    | ReadCert
    | ReadCerts
    | CommitIssue(subject: string, rest: Blob, key: Blob, csr: Blob, pkcs12: Blob, password: Blob)
    | CommitImport(cert: Leaf, key: Blob, csr: Blob, pkcs12: Blob, password: Blob)
    | CommitRenew(subject: string, rest: Blob, csr: Blob, pkcs12: Blob)
    | CommitRevoke(revokedAt: int)
    | CommitRenewCa(newCert: Blob, newPkcs12: Blob, crlEnabled: bool)
    | GiveUp

  datatype Step =
    | CreateCa(caId: CaId, commonName: string, made: CaSecrets, crlEnabled: bool)
    | Acquire(owner: OwnerId, caId: CaId, call: Call, now: int)
    | Act(owner: OwnerId, move: Move)
    | StoreTruststore(caId: CaId, builtFrom: Blob)
    | DropCa(caId: CaId)
    | UndropCa(caId: CaId)
    | DropCert(caId: CaId, certId: CertId)
    | UndropCert(caId: CaId, certId: CertId)
    | Nuke
    | TakeBackup
    | PutBackup(snapshot: Snapshot)

  // ----- the steps -----

  function Init(): Sys {
    Sys(Tables(map[], map[], map[]), map[], History(map[], map[], map[]), {})
  }

  function AtPhase(s: Sys, owner: OwnerId, phase: Phase): Sys
    requires owner in s.workers
  {
    s.(workers := s.workers[owner := s.workers[owner].(phase := phase)])
  }

  /** A transaction of this worker; when it succeeds the call is over. */
  function Commit(s: Sys, owner: OwnerId, r: Result<Tables, DbError>, history: History): Sys
    requires owner in s.workers
  {
    match r
    case Err(_) => s
    case Ok(t) => AtPhase(s, owner, Finished).(db := t, history := history)
  }

  function OnTables(s: Sys, r: Result<Tables, DbError>): Sys {
    match r
    case Err(_) => s
    case Ok(t) => s.(db := t)
  }

  /** A new CA starts with an empty index; its first CRL is generated before the row is inserted. */
  function NewCaSecrets(made: CaSecrets, crlEnabled: bool): CaSecrets {
    var bare := made.(index := [], crl := NoCrl, crlNumber := Some(1));
    if crlEnabled then
      var refresh := GenerateCrl(bare);
      bare.(crl := refresh.0, crlNumber := Some(refresh.1))
    else bare
  }

  function ApplyCreateCa(s: Sys, caId: CaId, commonName: string, made: CaSecrets, crlEnabled: bool): Sys {
    var secrets := NewCaSecrets(made, crlEnabled);
    match InsertCa(s.db, caId, commonName, secrets)
    case Err(_) => s
    case Ok(t) => s.(db := t, history :=
      if secrets.crl.Crl? then s.history.AddCrl(caId, secrets.crl.number) else s.history)
  }

  function ApplyAcquire(s: Sys, owner: OwnerId, caId: CaId, call: Call, now: int): Sys {
    if owner in s.workers then s  // owner ids are fresh
    else match AcquireCaLock(s.db, caId, owner, now, LOCK_TTL_MS)
      case Err(_) => s
      case Ok(t) => s.(db := t, workers := s.workers[owner := Worker(caId, call, Locked)])
  }

  function ApplyCheckUnrevoked(s: Sys, owner: OwnerId, w: Worker): Sys
    requires owner in s.workers
  {
    if w.call.Revoke? && w.phase.Locked? && GetCert(s.db, w.caId, w.call.certId).Some?
       && GetCert(s.db, w.caId, w.call.certId).value.revokedAt.None?
    then AtPhase(s, owner, Unrevoked) else s
  }

  function ApplyReadCa(s: Sys, owner: OwnerId, w: Worker): Sys
    requires owner in s.workers
  {
    if (if w.call.Revoke? then w.phase.Unrevoked? else w.phase.Locked?) && GetCaSecrets(s.db, w.caId).Some?
    then AtPhase(s, owner, GotCa(GetCaSecrets(s.db, w.caId).value)) else s
  }

  function ApplyReadCert(s: Sys, owner: OwnerId, w: Worker): Sys
    requires owner in s.workers
  {
    if (w.call.Revoke? || w.call.Renew?) && w.phase.GotCa? && GetCert(s.db, w.caId, w.call.certId).Some?
    then AtPhase(s, owner, GotCert(w.phase.ca, GetCert(s.db, w.caId, w.call.certId).value.secrets)) else s
  }

  function ApplyReadCerts(s: Sys, owner: OwnerId, w: Worker): Sys
    requires owner in s.workers
  {
    if w.call.RenewCa? && w.phase.GotCa?
    then AtPhase(s, owner, GotCerts(w.phase.ca, ListCertSecrets(s.db, w.caId))) else s
  }

  function ApplyIssue(s: Sys, owner: OwnerId, w: Worker, m: Move): Sys
    requires owner in s.workers && m.CommitIssue?
  {
    if !(w.call.Issue? && w.phase.GotCa?) then s
    else match IssueLeaf(w.phase.ca, m.subject, m.rest)
      case None => s
      case Some((leaf, index, serial)) =>
        var secrets := CertSecrets(leaf, m.key, m.csr, m.pkcs12, m.password,
                                   Bundle(m.csr, m.key, m.pkcs12, leaf, m.password, w.phase.ca.cert));
        Commit(s, owner,
               InsertCertWithState(s.db, w.call.certId, w.caId, w.call.commonName, secrets, Some((index, serial)), owner),
               s.history.AddIssuance(w.caId, w.call.certId, leaf))
  }

  /** Importing signs nothing, so the CA's index and serial stay. */
  function ApplyImport(s: Sys, owner: OwnerId, w: Worker, m: Move): Sys
    requires owner in s.workers && m.CommitImport?
  {
    if !(w.call.Import? && w.phase.GotCa?) then s
    else
      var secrets := CertSecrets(m.cert, m.key, m.csr, m.pkcs12, m.password,
                                 Bundle(m.csr, m.key, m.pkcs12, m.cert, m.password, w.phase.ca.cert));
      Commit(s, owner,
             InsertCertWithState(s.db, w.call.certId, w.caId, w.call.commonName, secrets, None, owner), s.history)
  }

  /** The bundle holds the rebuilt signing request; the row keeps its old one. */
  function ApplyRenew(s: Sys, owner: OwnerId, w: Worker, m: Move): Sys
    requires owner in s.workers && m.CommitRenew?
  {
    if !(w.call.Renew? && w.phase.GotCert?) then s
    else match IssueLeaf(w.phase.ca, m.subject, m.rest)
      case None => s
      case Some((leaf, index, serial)) =>
        var bundle := Bundle(m.csr, w.phase.cert.key, m.pkcs12, leaf, w.phase.cert.password, w.phase.ca.cert);
        Commit(s, owner,
               UpdateCertWithState(s.db, w.caId, w.call.certId, leaf, m.pkcs12, bundle, (index, serial), owner),
               s.history.AddIssuance(w.caId, w.call.certId, leaf))
  }

  function ApplyRevoke(s: Sys, owner: OwnerId, w: Worker, revokedAt: int): Sys
    requires owner in s.workers
  {
    if !(w.call.Revoke? && w.phase.GotCert?) then s
    else match RevokeFiles(w.phase.ca, w.phase.cert.cert)
      case None => s
      case Some((index, crl, number)) =>
        Commit(s, owner,
               RevokeCertWithState(s.db, w.caId, w.call.certId, w.call.reason, revokedAt,
                                   (index, w.phase.ca.serial), (crl, number), owner),
               s.history.AddCrl(w.caId, NextCrlNumber(w.phase.ca)))
  }

  function RebuiltBundles(certs: map<CertId, CertSecrets>, caCert: Blob): map<CertId, Bundle> {
    map c | c in certs :: BuildBundle(certs[c], caCert)
  }

  function ApplyRenewCa(s: Sys, owner: OwnerId, w: Worker, m: Move): Sys
    requires owner in s.workers && m.CommitRenewCa?
  {
    if !(w.call.RenewCa? && w.phase.GotCerts?) then s
    else
      var crl := if m.crlEnabled then Some(GenerateCrl(w.phase.ca)) else None;
      Commit(s, owner,
             RenewCaWithState(s.db, w.caId, m.newCert, m.newPkcs12, crl,
                              RebuiltBundles(w.phase.certs, m.newCert), owner),
             if m.crlEnabled then s.history.AddCrl(w.caId, NextCrlNumber(w.phase.ca)) else s.history)
  }

  function ApplyAct(s: Sys, owner: OwnerId, move: Move): Sys {
    if owner !in s.workers then s
    else
      var w := s.workers[owner];
      match move
      case CheckUnrevoked => ApplyCheckUnrevoked(s, owner, w)
      case ReadCa => ApplyReadCa(s, owner, w)
      case ReadCert => ApplyReadCert(s, owner, w)
      case ReadCerts => ApplyReadCerts(s, owner, w)
      case CommitIssue(_, _, _, _, _, _) => ApplyIssue(s, owner, w, move)
      case CommitImport(_, _, _, _, _) => ApplyImport(s, owner, w, move)
      case CommitRenew(_, _, _, _) => ApplyRenew(s, owner, w, move)
      case CommitRevoke(revokedAt) => ApplyRevoke(s, owner, w, revokedAt)
      case CommitRenewCa(_, _, _) => ApplyRenewCa(s, owner, w, move)
      case GiveUp => AtPhase(s, owner, Finished).(db := ReleaseCaLock(s.db, w.caId, owner))
  }

  function ApplyPutBackup(s: Sys, snapshot: Snapshot): Sys {
    if snapshot !in s.backups then s
    else match RestoreBackup(s.db, snapshot.cas, snapshot.certs)
      case Err(_) => s
      case Ok(t) => s.(db := t, history := snapshot.history)
  }

  /** One step; a step that is not possible changes nothing. */
  function Apply(s: Sys, step: Step): Sys {
    match step
    case CreateCa(caId, commonName, made, crlEnabled) => ApplyCreateCa(s, caId, commonName, made, crlEnabled)
    case Acquire(owner, caId, call, now) => ApplyAcquire(s, owner, caId, call, now)
    case Act(owner, move) => ApplyAct(s, owner, move)
    case StoreTruststore(caId, builtFrom) => s.(db := SetCaTruststore(s.db, caId, builtFrom, Truststore(builtFrom)))
    case DropCa(caId) => OnTables(s, DeleteCa(s.db, caId))
    case UndropCa(caId) => OnTables(s, RestoreCa(s.db, caId))
    case DropCert(caId, certId) => OnTables(s, DeleteCert(s.db, caId, certId))
    case UndropCert(caId, certId) => OnTables(s, RestoreCert(s.db, caId, certId))
    case Nuke => s.(db := NukeAll(s.db), history := History(map[], map[], map[]))
    case TakeBackup => s.(backups := s.backups + {Snapshot(BackupCas(s.db), s.db.certs, s.history)})
    case PutBackup(snapshot) => ApplyPutBackup(s, snapshot)
  }

  /** The state after a run from the empty database. */
  function Exec(steps: seq<Step>): Sys {
    if steps == [] then Init() else Apply(Exec(steps[..|steps| - 1]), steps[|steps| - 1])
  }
}
