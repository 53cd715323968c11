/** The guarantees of the signing protocol, over every run. */
module CaTheorems {
  import opened Wrappers
  import opened CaTables
  import opened CaProtocol
  import opened CaInvariants

  ghost predicate Holds(s: Sys, owner: OwnerId) {
    owner in s.workers && HoldsLock(s.db, s.workers[owner].caId, owner)
  }

  /** This move ends the call with a successful transaction. */
  ghost predicate Commits(s: Sys, owner: OwnerId, move: Move) {
    && owner in s.workers && !s.workers[owner].phase.Finished?
    && move != GiveUp
    && Apply(s, Act(owner, move)).workers[owner].phase.Finished?
  }

  // ----- locks -----

  lemma CommitNeedsLock(s: Sys, owner: OwnerId, move: Move)
    requires Inv(s) && Commits(s, owner, move)
    ensures Holds(s, owner) && !Holds(Apply(s, Act(owner, move)), owner)
    ensures !s.workers[owner].phase.Locked? && !s.workers[owner].phase.Unrevoked?
    ensures s.workers[owner].caId in s.db.cas
    ensures s.workers[owner].phase.ca == s.db.cas[s.workers[owner].caId].secrets
  {
    hide RowsOk;
    assert HoldsLock(s.db, s.workers[owner].caId, owner);
    HolderReadCa(s, owner);
  }

  /** A lock keeps everybody out for its time to live, and nobody out after that. */
  lemma LockExcludesForItsTtl(t: Tables, caId: CaId, first: OwnerId, now: int, second: OwnerId, later: int)
    requires AcquireCaLock(t, caId, first, now, LOCK_TTL_MS).Ok?
    ensures var taken := AcquireCaLock(t, caId, first, now, LOCK_TTL_MS).value;
      var again := AcquireCaLock(taken, caId, second, later, LOCK_TTL_MS);
      && HoldsLock(taken, caId, first)
      && (again == Err(Busy) <==> later <= now + LOCK_TTL_MS)
      && (again.Ok? ==>
            HoldsLock(again.value, caId, second) && (first != second ==> !HoldsLock(again.value, caId, first)))
  {
  }

  lemma StepKeepsLost(s: Sys, step: Step, owner: OwnerId)
    requires Inv(s) && owner in s.workers && !Holds(s, owner)
    ensures owner in Apply(s, step).workers && !Holds(Apply(s, step), owner)
  {
    hide RowsOk, ReadsCurrent;
    if step.Act? && step.owner in s.workers {
      ActLeavesLocks(s, step.owner, step.move);
    }
  }

  /** A worker's move only ever removes its own CA's lock row. */
  lemma ActLeavesLocks(s: Sys, owner: OwnerId, move: Move)
    requires owner in s.workers
    ensures var s' := ApplyAct(s, owner, move);
      && s'.workers.Keys == s.workers.Keys
      && (forall o :: o in s.workers ==>
            s'.workers[o].caId == s.workers[o].caId && s'.workers[o].call == s.workers[o].call)
      && s'.db.locks.Keys <= s.db.locks.Keys
      && (forall c :: c in s'.db.locks ==> s'.db.locks[c] == s.db.locks[c])
  {
    hide ApplyAct, OnlyUnder;
    ActKeepsWorkers(s, owner, move);
    ActIsLocked(s, owner, move);
  }

  lemma ActKeepsWorkers(s: Sys, owner: OwnerId, move: Move)
    requires owner in s.workers
    ensures var s' := ApplyAct(s, owner, move);
      && s'.workers.Keys == s.workers.Keys
      && (forall o :: o in s.workers ==>
            s'.workers[o].caId == s.workers[o].caId && s'.workers[o].call == s.workers[o].call)
  {
    hide IssueLeaf, RevokeFiles, GenerateCrl, InsertCertWithState, UpdateCertWithState, RevokeCertWithState,
      RenewCaWithState, ReleaseCaLock, GetCert, GetCaSecrets, ListCertSecrets, RebuiltBundles;
  }

  /** A lock that expired and was purged, or was swept by a nuke, is never held again by the same worker. */
  lemma {:induction false} LostLockIsFinal(steps: seq<Step>, more: seq<Step>, owner: OwnerId)
    requires owner in Exec(steps).workers && !Holds(Exec(steps), owner)
    ensures owner in Exec(steps + more).workers && !Holds(Exec(steps + more), owner)
    decreases |more|
  {
    hide Apply, Inv, Holds;
    if more == [] {
      assert steps + more == steps;
    } else {
      var rest := more[..|more| - 1];
      LostLockIsFinal(steps, rest, owner);
      ExecKeepsInv(steps + rest);
      StepKeepsLost(Exec(steps + rest), more[|more| - 1], owner);
      assert (steps + more)[..|steps + more| - 1] == steps + rest;
    }
  }

  /** A worker that no longer holds its lock row can never commit, whatever it has read. */
  lemma LostLockNeverCommits(steps: seq<Step>, more: seq<Step>, owner: OwnerId, move: Move)
    requires owner in Exec(steps).workers && !Holds(Exec(steps), owner)
    ensures !Commits(Exec(steps + more), owner, move)
  {
    LostLockIsFinal(steps, more, owner);
    ExecKeepsInv(steps + more);
    if Commits(Exec(steps + more), owner, move) {
      CommitNeedsLock(Exec(steps + more), owner, move);
    }
  }

  /** A move that does not end its call leaves the tables alone, and no move touches another worker. */
  lemma ActEndsOrKeeps(s: Sys, owner: OwnerId, move: Move)
    requires owner in s.workers
    ensures var s' := ApplyAct(s, owner, move);
      && s'.workers.Keys == s.workers.Keys
      && (s'.workers[owner].phase.Finished? || s'.db == s.db)
      && (forall o :: o in s.workers && o != owner ==> s'.workers[o] == s.workers[o])
  {
    hide IssueLeaf, RevokeFiles, GenerateCrl, InsertCertWithState, UpdateCertWithState, RevokeCertWithState,
      RenewCaWithState, ReleaseCaLock, GetCert, GetCaSecrets, ListCertSecrets, RebuiltBundles;
  }

  /** The worker is through with its call, or its lock row is still as it was acquired. */
  ghost predicate StillLocked(s: Sys, owner: OwnerId, caId: CaId, expiresAt: int) {
    && owner in s.workers && s.workers[owner].caId == caId
    && (s.workers[owner].phase.Finished? || (caId in s.db.locks && s.db.locks[caId] == LockRow(owner, expiresAt)))
  }

  lemma ActKeepsLock(s: Sys, actor: OwnerId, move: Move, owner: OwnerId, caId: CaId, expiresAt: int)
    requires actor in s.workers && StillLocked(s, owner, caId, expiresAt)
    ensures StillLocked(ApplyAct(s, actor, move), owner, caId, expiresAt)
  {
    hide ApplyAct, OnlyUnder;
    ActEndsOrKeeps(s, actor, move);
    ActKeepsWorkers(s, actor, move);
    ActIsLocked(s, actor, move);
    if actor == owner && s.workers[owner].phase.Finished? {
      FinishedStays(s, owner, move);
    }
  }

  lemma FinishedStays(s: Sys, owner: OwnerId, move: Move)
    requires owner in s.workers && s.workers[owner].phase.Finished?
    ensures owner in ApplyAct(s, owner, move).workers && ApplyAct(s, owner, move).workers[owner].phase.Finished?
  {
    hide IssueLeaf, RevokeFiles, GenerateCrl, ReleaseCaLock, GetCert, GetCaSecrets;
  }

  lemma AcquireKeepsLock(s: Sys, step: Step, owner: OwnerId, caId: CaId, expiresAt: int)
    requires StillLocked(s, owner, caId, expiresAt) && step.Acquire? && step.now <= expiresAt
    ensures StillLocked(Apply(s, step), owner, caId, expiresAt)
  {
  }

  lemma UnlockedKeepsLock(s: Sys, step: Step, owner: OwnerId, caId: CaId, expiresAt: int)
    requires StillLocked(s, owner, caId, expiresAt) && !step.Act? && !step.Acquire? && step != Nuke
    ensures StillLocked(Apply(s, step), owner, caId, expiresAt)
  {
    hide ApplyAct, ApplyAcquire, NewCaSecrets, BackupCas, CaNameTaken, CertNameTaken;
    if IsQuiet(step) {
      hide Apply, Quiet;
      QuietStep(s, step);
    }
  }

  lemma StepKeepsLock(s: Sys, step: Step, owner: OwnerId, caId: CaId, expiresAt: int)
    requires StillLocked(s, owner, caId, expiresAt)
    requires step != Nuke && (step.Acquire? ==> step.now <= expiresAt)
    ensures StillLocked(Apply(s, step), owner, caId, expiresAt)
  {
    hide StillLocked, ApplyAct, ApplyAcquire, ApplyCreateCa, ApplyPutBackup;
    match step
    case Act(actor, move) =>
      if actor in s.workers {
        ActKeepsLock(s, actor, move, owner, caId, expiresAt);
      } else {
        ActOfNobody(s, actor, move);
      }
    case Acquire(_, _, _, _) => AcquireKeepsLock(s, step, owner, caId, expiresAt);
    case CreateCa(_, _, _, _) => UnlockedKeepsLock(s, step, owner, caId, expiresAt);
    case StoreTruststore(_, _) => UnlockedKeepsLock(s, step, owner, caId, expiresAt);
    case DropCa(_) => UnlockedKeepsLock(s, step, owner, caId, expiresAt);
    case UndropCa(_) => UnlockedKeepsLock(s, step, owner, caId, expiresAt);
    case DropCert(_, _) => UnlockedKeepsLock(s, step, owner, caId, expiresAt);
    case UndropCert(_, _) => UnlockedKeepsLock(s, step, owner, caId, expiresAt);
    case TakeBackup => UnlockedKeepsLock(s, step, owner, caId, expiresAt);
    case PutBackup(_) => UnlockedKeepsLock(s, step, owner, caId, expiresAt);
    case Nuke =>
  }

  lemma {:induction false} RunKeepsLock(steps: seq<Step>, more: seq<Step>, owner: OwnerId, caId: CaId, expiresAt: int)
    requires StillLocked(Exec(steps), owner, caId, expiresAt)
    requires Nuke !in more && forall i :: 0 <= i < |more| && more[i].Acquire? ==> more[i].now <= expiresAt
    ensures StillLocked(Exec(steps + more), owner, caId, expiresAt)
    decreases |more|
  {
    hide Apply, StillLocked;
    if more == [] {
      assert steps + more == steps;
    } else {
      var (rest, last) := (more[..|more| - 1], more[|more| - 1]);
      assert steps + more == (steps + rest) + [last] && last in more;
      ExecThen(steps + rest, last);
      RunKeepsLock(steps, rest, owner, caId, expiresAt);
      StepKeepsLock(Exec(steps + rest), last, owner, caId, expiresAt);
    }
  }

  /**
   A lock lasts its time to live: until somebody's clock reads later than that, a worker that acquired it holds it or has
   ended its call, whatever the other workers and the unlocked operations do, short of a nuke.
   */
  lemma LockLastsItsTtl(steps: seq<Step>, owner: OwnerId, caId: CaId, call: Call, now: int, more: seq<Step>)
    requires owner !in Exec(steps).workers && owner in Exec(steps + [Acquire(owner, caId, call, now)]).workers
    requires Nuke !in more
    requires forall i :: 0 <= i < |more| && more[i].Acquire? ==> more[i].now <= now + LOCK_TTL_MS
    ensures var s := Exec(steps + [Acquire(owner, caId, call, now)] + more);
      owner in s.workers && (s.workers[owner].phase.Finished? || Holds(s, owner))
  {
    hide ApplyAct;
    var acquire := Acquire(owner, caId, call, now);
    ExecThen(steps, acquire);
    assert StillLocked(Exec(steps + [acquire]), owner, caId, now + LOCK_TTL_MS);
    RunKeepsLock(steps + [acquire], more, owner, caId, now + LOCK_TTL_MS);
  }

  /** While a worker keeps the lock, nobody changes the CA's signing state or its certificates' files. */
  ghost predicate SameSigningState(before: Tables, after: Tables, ca: CaId) {
    && ca in before.cas && ca in after.cas
    && after.cas[ca].secrets == before.cas[ca].secrets
    && ListCertSecrets(after, ca) == ListCertSecrets(before, ca)
  }

  /** Whatever a move changes in the tables lies under its own CA. */
  ghost predicate OnlyUnder(before: Tables, after: Tables, ca: CaId) {
    && after.cas.Keys == before.cas.Keys
    && (forall c :: c in before.cas && c != ca ==> after.cas[c] == before.cas[c])
    && (forall c :: c in before.certs && before.certs[c].caId != ca ==>
          c in after.certs && after.certs[c] == before.certs[c])
    && (forall c :: c in after.certs && after.certs[c].caId != ca ==>
          c in before.certs && after.certs[c] == before.certs[c])
  }

  lemma OnlyUnderFreezesOthers(before: Tables, after: Tables, ca: CaId, other: CaId)
    requires OnlyUnder(before, after, ca) && other != ca && other in before.cas
    ensures SameSigningState(before, after, other)
  {
    assert ListCertSecrets(after, other) == ListCertSecrets(before, other);
  }

  /** A move that changes the tables held the lock, ends it, and stays under its CA. */
  ghost predicate LockedChange(before: Tables, after: Tables, ca: CaId, owner: OwnerId) {
    after != before ==>
      HoldsLock(before, ca, owner) && after.locks == before.locks - {ca} && OnlyUnder(before, after, ca)
  }

  lemma IssueIsLocked(s: Sys, owner: OwnerId, w: Worker, m: Move)
    requires owner in s.workers && m.CommitIssue?
    ensures LockedChange(s.db, ApplyIssue(s, owner, w, m).db, w.caId, owner)
  {
    hide IssueLeaf;
  }

  lemma ImportIsLocked(s: Sys, owner: OwnerId, w: Worker, m: Move)
    requires owner in s.workers && m.CommitImport?
    ensures LockedChange(s.db, ApplyImport(s, owner, w, m).db, w.caId, owner)
  {
  }

  lemma RenewIsLocked(s: Sys, owner: OwnerId, w: Worker, m: Move)
    requires owner in s.workers && m.CommitRenew?
    ensures LockedChange(s.db, ApplyRenew(s, owner, w, m).db, w.caId, owner)
  {
    hide IssueLeaf;
  }

  lemma RevokeIsLocked(s: Sys, owner: OwnerId, w: Worker, revokedAt: int)
    requires owner in s.workers
    ensures LockedChange(s.db, ApplyRevoke(s, owner, w, revokedAt).db, w.caId, owner)
  {
    hide RevokeFiles;
  }

  lemma RenewCaIsLocked(s: Sys, owner: OwnerId, w: Worker, m: Move)
    requires owner in s.workers && m.CommitRenewCa?
    ensures LockedChange(s.db, ApplyRenewCa(s, owner, w, m).db, w.caId, owner)
  {
    hide GenerateCrl;
  }

  lemma ActIsLocked(s: Sys, owner: OwnerId, move: Move)
    requires owner in s.workers
    ensures LockedChange(s.db, ApplyAct(s, owner, move).db, s.workers[owner].caId, owner)
  {
    hide LockedChange, ApplyIssue, ApplyImport, ApplyRenew, ApplyRevoke, ApplyRenewCa;
    var w := s.workers[owner];
    match move
    case CheckUnrevoked => UnchangedIsLocked(s.db, w.caId, owner);
    case ReadCa => UnchangedIsLocked(s.db, w.caId, owner);
    case ReadCert => UnchangedIsLocked(s.db, w.caId, owner);
    case ReadCerts => UnchangedIsLocked(s.db, w.caId, owner);
    case CommitIssue(_, _, _, _, _, _) => IssueIsLocked(s, owner, w, move);
    case CommitImport(_, _, _, _, _) => ImportIsLocked(s, owner, w, move);
    case CommitRenew(_, _, _, _) => RenewIsLocked(s, owner, w, move);
    case CommitRevoke(revokedAt) => RevokeIsLocked(s, owner, w, revokedAt);
    case CommitRenewCa(_, _, _) => RenewCaIsLocked(s, owner, w, move);
    case GiveUp => ReleaseIsLocked(s.db, w.caId, owner);
  }

  lemma UnchangedIsLocked(t: Tables, ca: CaId, owner: OwnerId)
    ensures LockedChange(t, t, ca, owner)
  {
  }

  lemma ReleaseIsLocked(t: Tables, ca: CaId, owner: OwnerId)
    ensures LockedChange(t, ReleaseCaLock(t, ca, owner), ca, owner)
  {
  }

  lemma LockFreezesStep(s: Sys, step: Step, owner: OwnerId)
    requires Inv(s) && Holds(s, owner) && Holds(Apply(s, step), owner)
    ensures Apply(s, step).workers[owner].caId == s.workers[owner].caId
    ensures SameSigningState(s.db, Apply(s, step).db, s.workers[owner].caId)
  {
    hide RowsOk, HoldersOk;
    var ca := s.workers[owner].caId;
    var s' := Apply(s, step);
    if step.Act? {
      if step.owner in s.workers {
        ActLeavesLocks(s, step.owner, step.move);
        ActIsLocked(s, step.owner, step.move);
        if s'.db != s.db {
          assert s.workers[step.owner].caId != ca;
          OnlyUnderFreezesOthers(s.db, s'.db, s.workers[step.owner].caId, ca);
        }
      }
    } else {
      UnlockedFreezesStep(s, step, ca);
    }
  }

  /** Operations outside the lock never touch signing state, short of a nuke. */
  lemma UnlockedFreezesStep(s: Sys, step: Step, ca: CaId)
    requires !step.Act? && !step.Nuke? && ca in s.db.cas
    ensures SameSigningState(s.db, Apply(s, step).db, ca)
  {
    hide ApplyAct, NewCaSecrets, LiveLocks, BackupCas, CaNameTaken, CertNameTaken;
    if IsQuiet(step) {
      hide Apply;
      QuietStep(s, step);
    } else {
      assert s.db.cas != map[];
    }
    assert ListCertSecrets(Apply(s, step).db, ca) == ListCertSecrets(s.db, ca);
  }

  lemma {:induction false} LockFreezes(steps: seq<Step>, more: seq<Step>, owner: OwnerId)
    requires owner in Exec(steps).workers && Holds(Exec(steps + more), owner)
    ensures Holds(Exec(steps), owner)
    ensures Exec(steps + more).workers[owner].caId == Exec(steps).workers[owner].caId
    ensures SameSigningState(Exec(steps).db, Exec(steps + more).db, Exec(steps).workers[owner].caId)
    decreases |more|
  {
    if !Holds(Exec(steps), owner) {
      LostLockIsFinal(steps, more, owner);
    } else if more == [] {
      assert steps + more == steps;
      ExecKeepsInv(steps);
      HolderCaExists(Exec(steps), owner);
    } else {
      var rest := more[..|more| - 1];
      assert (steps + more)[..|steps + more| - 1] == steps + rest;
      ExecKeepsInv(steps + rest);
      WorkersStay(steps, rest, owner);
      if !Holds(Exec(steps + rest), owner) {
        StepKeepsLost(Exec(steps + rest), more[|more| - 1], owner);
      }
      LockFreezes(steps, rest, owner);
      LockFreezesStep(Exec(steps + rest), more[|more| - 1], owner);
    }
  }

  lemma HolderCaExists(s: Sys, owner: OwnerId)
    requires Inv(s) && Holds(s, owner)
    ensures s.workers[owner].caId in s.db.cas
  {
  }

  lemma StepKeepsWorker(s: Sys, step: Step, owner: OwnerId)
    requires owner in s.workers
    ensures owner in Apply(s, step).workers
  {
    hide ApplyAct;
    if step.Act? && step.owner in s.workers {
      ActKeepsWorkers(s, step.owner, step.move);
    } else if step.Act? {
      ActOfNobody(s, step.owner, step.move);
    }
  }

  lemma {:induction false} WorkersStay(steps: seq<Step>, more: seq<Step>, owner: OwnerId)
    requires owner in Exec(steps).workers
    ensures owner in Exec(steps + more).workers
    decreases |more|
  {
    hide Apply;
    if more == [] {
      assert steps + more == steps;
    } else {
      var rest := more[..|more| - 1];
      assert (steps + more)[..|steps + more| - 1] == steps + rest;
      WorkersStay(steps, rest, owner);
      StepKeepsWorker(Exec(steps + rest), more[|more| - 1], owner);
    }
  }

  /**
   No lost update: when a commit succeeds, the CA's secrets (index, serial, CRL number, certificate) in the
   tables are the ones the worker read, and they have not changed at any point since it acquired the lock,
   for any clock, any purge and any interleaved nuke or restore.
   */
  lemma NoLostUpdate(steps: seq<Step>, more: seq<Step>, owner: OwnerId, move: Move)
    requires owner in Exec(steps).workers && Commits(Exec(steps + more), owner, move)
    ensures var w := Exec(steps + more).workers[owner];
      && (w.phase.GotCa? || w.phase.GotCert? || w.phase.GotCerts?)
      && w.caId in Exec(steps).db.cas && w.caId in Exec(steps + more).db.cas
      && Exec(steps + more).db.cas[w.caId].secrets == w.phase.ca
      && Exec(steps).db.cas[w.caId].secrets == w.phase.ca
      && ListCertSecrets(Exec(steps + more).db, w.caId) == ListCertSecrets(Exec(steps).db, w.caId)
  {
    ExecKeepsInv(steps + more);
    CommitNeedsLock(Exec(steps + more), owner, move);
    LockFreezes(steps, more, owner);
  }

  // ----- stored artifacts -----

  /** Every stored bundle, soft-deleted rows too, embeds its CA's current certificate and its row's own files. */
  lemma BundlesAreCurrent(steps: seq<Step>, cert: CertId)
    requires cert in Exec(steps).db.certs
    ensures var t := Exec(steps).db;
      var row := t.certs[cert];
      && row.caId in t.cas
      && row.secrets.bundle.caCert == t.cas[row.caId].secrets.cert
      && row.secrets.bundle.cert == row.secrets.cert && row.secrets.bundle.key == row.secrets.key
      && row.secrets.bundle.pkcs12 == row.secrets.pkcs12 && row.secrets.bundle.password == row.secrets.password
  {
    ExecKeepsInv(steps);
  }

  /** The stored truststore is empty or holds the CA's current certificate. */
  lemma TruststoreIsCurrent(steps: seq<Step>, ca: CaId)
    requires ca in Exec(steps).db.cas
    ensures var row := Exec(steps).db.cas[ca];
      row.truststore == NoTruststore || row.truststore.caCert == row.secrets.cert
  {
    ExecKeepsInv(steps);
  }

  /** The stored CRL is empty or lists exactly the serials marked `R` in the stored index. */
  lemma CrlMatchesIndex(steps: seq<Step>, ca: CaId)
    requires ca in Exec(steps).db.cas && Exec(steps).db.cas[ca].secrets.crl.Crl?
    ensures var secrets := Exec(steps).db.cas[ca].secrets;
      && secrets.crl.serials == RevokedSerials(secrets.index)
      && forall serial: nat :: serial in secrets.crl.serials <==> IsRevoked(secrets.index, serial)
  {
    ExecKeepsInv(steps);
  }

  // ----- revocation -----

  /** All files of a certificate row but its bundle, which a CA renewal rebuilds. */
  ghost predicate SameRevokedRow(before: CertRow, after: CertRow) {
    && before.revokedAt.Some? && after.revokedAt == before.revokedAt && after.reason == before.reason
    && after.caId == before.caId
    && after.secrets.(bundle := before.secrets.bundle) == before.secrets
  }

  ghost predicate KeepsRevokedRow(s: Sys, s': Sys, cert: CertId)
    requires cert in s.db.certs
  {
    && cert in s'.db.certs && SameRevokedRow(s.db.certs[cert], s'.db.certs[cert])
    && s'.history.Row(cert) == s.history.Row(cert)
  }

  lemma ActKeepsRevokedRow(s: Sys, owner: OwnerId, move: Move, cert: CertId)
    requires HoldersOk(s) && owner in s.workers
    requires cert in s.db.certs && s.db.certs[cert].revokedAt.Some?
    ensures KeepsRevokedRow(s, ApplyAct(s, owner, move), cert)
  {
    hide ApplyIssue, ApplyImport, ApplyRenew, ApplyRevoke, ApplyRenewCa, ReadsCurrent;
    var w := s.workers[owner];
    match move
    case CommitIssue(_, _, _, _, _, _) => InsertKeepsOtherRows(s, owner, move, cert);
    case CommitImport(_, _, _, _, _) => InsertKeepsOtherRows(s, owner, move, cert);
    case CommitRenew(_, _, _, _) => RenewKeepsRevokedRow(s, owner, move, cert);
    case CommitRevoke(revokedAt) => RevokeKeepsRevokedRow(s, owner, revokedAt, cert);
    case CommitRenewCa(_, _, _) => RenewCaKeepsRevokedRow(s, owner, move, cert);
    case CheckUnrevoked =>
    case ReadCa =>
    case ReadCert =>
    case ReadCerts =>
    case GiveUp =>
  }

  lemma InsertKeepsOtherRows(s: Sys, owner: OwnerId, m: Move, cert: CertId)
    requires owner in s.workers && (m.CommitIssue? || m.CommitImport?)
    requires cert in s.db.certs && s.db.certs[cert].revokedAt.Some?
    ensures KeepsRevokedRow(s, ApplyAct(s, owner, m), cert)
  {
    hide IssueLeaf;
  }

  lemma RenewKeepsRevokedRow(s: Sys, owner: OwnerId, m: Move, cert: CertId)
    requires owner in s.workers && m.CommitRenew?
    requires cert in s.db.certs && s.db.certs[cert].revokedAt.Some?
    ensures KeepsRevokedRow(s, ApplyRenew(s, owner, s.workers[owner], m), cert)
  {
    hide IssueLeaf;
  }

  /** The update itself would overwrite a revocation; the check made under the lock is what prevents it. */
  lemma RevokeKeepsRevokedRow(s: Sys, owner: OwnerId, revokedAt: int, cert: CertId)
    requires HoldersOk(s) && owner in s.workers
    requires cert in s.db.certs && s.db.certs[cert].revokedAt.Some?
    ensures KeepsRevokedRow(s, ApplyRevoke(s, owner, s.workers[owner], revokedAt), cert)
  {
    hide RevokeFiles, ReadsCurrent;
    if s.workers[owner].phase.GotCert? && HoldsLock(s.db, s.workers[owner].caId, owner) {
      HolderReadCert(s, owner);
    }
  }

  lemma RenewCaKeepsRevokedRow(s: Sys, owner: OwnerId, m: Move, cert: CertId)
    requires owner in s.workers && m.CommitRenewCa?
    requires cert in s.db.certs && s.db.certs[cert].revokedAt.Some?
    ensures KeepsRevokedRow(s, ApplyRenewCa(s, owner, s.workers[owner], m), cert)
  {
    hide GenerateCrl;
  }

  lemma StepKeepsRevokedRow(s: Sys, step: Step, cert: CertId)
    requires Inv(s) && step != Nuke
    requires cert in s.db.certs && s.db.certs[cert].revokedAt.Some?
    ensures KeepsRevokedRow(s, Apply(s, step), cert)
  {
    hide RowsOk, HoldersOk, ApplyAct;
    if step.Act? {
      if step.owner in s.workers {
        ActKeepsRevokedRow(s, step.owner, step.move, cert);
      } else {
        ActOfNobody(s, step.owner, step.move);
      }
    }
  }

  /**
   Revocation is permanent: until a nuke, the row keeps its revocation and its certificate, and its serial and
   every serial the CA issued for that row under the same subject are revoked in the index.
   */
  lemma {:induction false} RevocationIsPermanent(steps: seq<Step>, more: seq<Step>, cert: CertId)
    requires cert in Exec(steps).db.certs && Exec(steps).db.certs[cert].revokedAt.Some?
    requires Nuke !in more
    ensures var s := Exec(steps);
      var s' := Exec(steps + more);
      && cert in s'.db.certs && SameRevokedRow(s.db.certs[cert], s'.db.certs[cert])
      && s'.history.Row(cert) == s.history.Row(cert)
      && s'.db.certs[cert].caId in s'.db.cas
      && var index := s'.db.cas[s'.db.certs[cert].caId].secrets.index;
         && IsRevoked(index, s'.db.certs[cert].secrets.cert.serial)
         && forall i :: 0 <= i < |s'.history.Row(cert)|
                        && s'.history.Row(cert)[i].subject == s'.db.certs[cert].secrets.cert.subject ==>
              IsRevoked(index, s'.history.Row(cert)[i].serial)
    decreases |more|
  {
    hide RowsOk, Apply;
    ExecKeepsInv(steps + more);
    if more == [] {
      assert steps + more == steps;
    } else {
      var rest := more[..|more| - 1];
      assert (steps + more)[..|steps + more| - 1] == steps + rest;
      RevocationIsPermanent(steps, rest, cert);
      ExecKeepsInv(steps + rest);
      StepKeepsRevokedRow(Exec(steps + rest), more[|more| - 1], cert);
    }
    RevokedRowOk(Exec(steps + more), cert);
  }

  lemma RevokedRowOk(s: Sys, cert: CertId)
    requires Inv(s) && cert in s.db.certs
    ensures s.db.certs[cert].caId in s.db.cas
    ensures RevocationOk(s.db.certs[cert], s.db.cas[s.db.certs[cert].caId].secrets.index, s.history.Row(cert))
  {
  }

  /** The subject whose serials a revocation reaches: the one the index records the certificate's serial under. */
  function ReachedSubject(index: seq<Entry>, cert: Leaf): string {
    if FindSerial(index, cert.serial) < |index| then index[FindSerial(index, cert.serial)].subject else cert.subject
  }

  /** Exactly which serials a revocation revokes: its own and those the index records under the reached subject. */
  lemma RevocationRevokesExactly(ca: CaSecrets, cert: Leaf, serial: nat)
    requires DistinctSerials(ca.index) && RevokeFiles(ca, cert).Some?
    ensures IsRevoked(RevokeFiles(ca, cert).value.0, serial) <==>
            IsRevoked(ca.index, serial) || serial == cert.serial
            || HasEntry(ca.index, serial, ReachedSubject(ca.index, cert))
  {
    var reached := cert.(subject := ReachedSubject(ca.index, cert));
    assert RevokeFiles(ca, reached) == RevokeFiles(ca, cert);
    assert HasSerial(ca.index, cert.serial) ==> HasEntry(ca.index, cert.serial, reached.subject);
    hide RevokeFiles, IsRevoked, HasEntry, HasSerial, DistinctSerials, ReachedSubject;
    RevokesOwnSubject(ca, reached, serial);
  }

  lemma RevokesOwnSubject(ca: CaSecrets, cert: Leaf, serial: nat)
    requires DistinctSerials(ca.index) && RevokeFiles(ca, cert).Some?
    requires HasSerial(ca.index, cert.serial) ==> HasEntry(ca.index, cert.serial, cert.subject)
    ensures IsRevoked(RevokeFiles(ca, cert).value.0, serial) <==>
            IsRevoked(ca.index, serial) || serial == cert.serial || HasEntry(ca.index, serial, cert.subject)
  {
    hide RevokeFiles, IsRevoked, HasEntry, HasSerial, Grows, DistinctSerials;
    RevokeFilesKeepsIndex(ca, cert);
    if IsRevoked(ca.index, serial) {
      GrowsRevoked(ca.index, RevokeFiles(ca, cert).value.0, serial);
    }
    if IsRevoked(RevokeFiles(ca, cert).value.0, serial) && serial != cert.serial {
      RevokedWasRecorded(ca, cert, serial);
    }
  }

  lemma RevokedWasRecorded(ca: CaSecrets, cert: Leaf, serial: nat)
    requires DistinctSerials(ca.index) && RevokeFiles(ca, cert).Some? && serial != cert.serial
    requires HasSerial(ca.index, cert.serial) ==> HasEntry(ca.index, cert.serial, cert.subject)
    requires IsRevoked(RevokeFiles(ca, cert).value.0, serial)
    ensures IsRevoked(ca.index, serial) || HasEntry(ca.index, serial, cert.subject)
  {
    hide Grows, RevokeSuperseded, IsRevoked, HasEntry, HasSerial, DistinctSerials, RevokedSerials;
    var revoked := RevokeLeaf(ca.index, cert).value;
    RevokeLeafKeepsIndex(ca.index, cert);
    SupersededWasRecorded(revoked, cert, serial);
    OnlyOwnSerialChanges(ca.index, cert, serial);
  }

  lemma SupersededWasRecorded(index: seq<Entry>, cert: Leaf, serial: nat)
    requires DistinctSerials(index) && HasEntry(index, cert.serial, cert.subject)
    requires IsRevoked(RevokeSuperseded(index, cert.serial), serial)
    ensures IsRevoked(index, serial) || HasEntry(index, serial, cert.subject)
  {
    var after := RevokeSuperseded(index, cert.serial);
    var i :| 0 <= i < |after| && after[i].serial == serial && after[i].status == Revoked;
    var j :| 0 <= j < |index| && index[j].serial == cert.serial && index[j].subject == cert.subject;
    assert index[i].serial == serial;
    assert FindRevoked(index, cert.serial) == |index| || FindRevoked(index, cert.serial) == j;
  }

  lemma OnlyOwnSerialChanges(index: seq<Entry>, cert: Leaf, serial: nat)
    requires RevokeLeaf(index, cert).Some? && serial != cert.serial
    ensures var after := RevokeLeaf(index, cert).value;
      && (IsRevoked(after, serial) ==> IsRevoked(index, serial))
      && (HasEntry(after, serial, cert.subject) ==> HasEntry(index, serial, cert.subject))
  {
    var after := RevokeLeaf(index, cert).value;
    forall i | 0 <= i < |after| && after[i].serial == serial ensures i < |index| && after[i] == index[i] {
    }
  }

  lemma GrowsRevoked(before: seq<Entry>, after: seq<Entry>, serial: nat)
    requires Grows(before, after) && IsRevoked(before, serial)
    ensures IsRevoked(after, serial)
  {
  }

  lemma ExecThen(run: seq<Step>, step: Step)
    ensures Exec(run + [step]) == Apply(Exec(run), step)
  {
    assert (run + [step])[..|run|] == run;
  }

  /** The state once `owner` has acquired the lock of "ca" and come as far as `phase`, nobody else holding a lock. */
  function Working(s: Sys, owner: OwnerId, call: Call, phase: Phase): Sys {
    s.(db := s.db.(locks := map["ca" := LockRow(owner, LOCK_TTL_MS)]),
       workers := s.workers[owner := Worker("ca", call, phase)])
  }

  lemma Acquires(s: Sys, owner: OwnerId, call: Call)
    requires s.db.locks == map[] && "ca" in s.db.cas && owner !in s.workers
    ensures Apply(s, Acquire(owner, "ca", call, 0)) == Working(s, owner, call, Locked)
  {
    assert LiveLocks(s.db.locks, 0) == map[];
  }

  lemma Advances(s: Sys, owner: OwnerId, call: Call, from: Phase, move: Move, to: Phase)
    requires var w := Working(s, owner, call, from);
      ApplyAct(w, owner, move) == AtPhase(w, owner, to)
    ensures Apply(Working(s, owner, call, from), Act(owner, move)) == Working(s, owner, call, to)
  {
    hide ApplyAct;
  }

  lemma Imports(s: Sys, leaf: Leaf)
    requires s.db.locks == map[] && ActiveCa(s.db, "ca") && "c" !in s.db.certs && 1 !in s.workers
    ensures var call := Import("c", "web");
      var t := Apply(Apply(Apply(s, Acquire(1, "ca", call, 0)), Act(1, ReadCa)),
                     Act(1, CommitImport(leaf, "", "", "", "")));
      && t.db.cas == s.db.cas && t.db.locks == map[] && t.workers.Keys == s.workers.Keys + {1}
      && GetCert(t.db, "ca", "c").Some? && t.db.certs["c"].revokedAt.None? && t.db.certs["c"].secrets.cert == leaf
  {
    var (call, ca) := (Import("c", "web"), s.db.cas["ca"].secrets);
    Acquires(s, 1, call);
    Advances(s, 1, call, Locked, ReadCa, GotCa(ca));
    assert map["ca" := LockRow(1, LOCK_TTL_MS)] - {"ca"} == map[];
    assert s.db.cas["ca" := s.db.cas["ca"]] == s.db.cas;
  }

  lemma Renews(s: Sys, subject: string)
    requires s.db.locks == map[] && GetCert(s.db, "ca", "c").Some? && s.db.certs["c"].revokedAt.None? && 2 !in s.workers
    requires s.db.cas["ca"].secrets.index == []
    ensures var call := Renew("c");
      var t := Apply(Apply(Apply(Apply(s, Acquire(2, "ca", call, 0)), Act(2, ReadCa)), Act(2, ReadCert)),
                     Act(2, CommitRenew(subject, "new", "", "")));
      var serial := s.db.cas["ca"].secrets.serial;
      && t.db.locks == map[] && t.workers.Keys == s.workers.Keys + {2} && GetCert(t.db, "ca", "c").Some?
      && t.db.certs["c"].revokedAt.None? && t.db.certs["c"].secrets.cert == Leaf(serial, subject, "new")
      && t.db.cas["ca"].secrets.index == [Entry(Valid, serial, subject)]
  {
    var (call, ca, cert) := (Renew("c"), s.db.cas["ca"].secrets, s.db.certs["c"].secrets);
    Acquires(s, 2, call);
    Advances(s, 2, call, Locked, ReadCa, GotCa(ca));
    Advances(s, 2, call, GotCa(ca), ReadCert, GotCert(ca, cert));
    assert map["ca" := LockRow(2, LOCK_TTL_MS)] - {"ca"} == map[];
    assert FindSerial(ca.index, ca.serial) == 0;
    assert IssueLeaf(ca, subject, "new").value.1 == [Entry(Valid, ca.serial, subject)];
  }

  lemma Revokes(s: Sys, serial: nat)
    requires s.db.locks == map[] && GetCert(s.db, "ca", "c").Some? && s.db.certs["c"].revokedAt.None? && 3 !in s.workers
    requires var leaf := s.db.certs["c"].secrets.cert;
      s.db.cas["ca"].secrets.index == [Entry(Valid, leaf.serial, leaf.subject)] && serial != leaf.serial
    ensures var call := Revoke("c", "");
      var t := Apply(Apply(Apply(Apply(Apply(s, Acquire(3, "ca", call, 0)), Act(3, CheckUnrevoked)), Act(3, ReadCa)),
                           Act(3, ReadCert)), Act(3, CommitRevoke(1)));
      && "c" in t.db.certs && t.db.certs["c"].revokedAt == Some(1) && "ca" in t.db.cas
      && t.db.certs["c"].caId == "ca" && t.db.certs["c"].secrets.cert == s.db.certs["c"].secrets.cert
      && !IsRevoked(t.db.cas["ca"].secrets.index, serial)
  {
    var (call, ca, cert) := (Revoke("c", ""), s.db.cas["ca"].secrets, s.db.certs["c"].secrets);
    Acquires(s, 3, call);
    Advances(s, 3, call, Locked, CheckUnrevoked, Unrevoked);
    Advances(s, 3, call, Unrevoked, ReadCa, GotCa(ca));
    Advances(s, 3, call, GotCa(ca), ReadCert, GotCert(ca, cert));
    RevocationRevokesExactly(ca, cert.cert, serial);
  }

  /**
   The first serial of an imported certificate escapes: imported at one serial, renewed at the CA's next one under the
   same subject and then revoked, the certificate leaves its first serial unrevoked.
   */
  lemma ImportedSerialEscapes(made: CaSecrets, leaf: Leaf) returns (imported: seq<Step>, more: seq<Step>)
    requires leaf.serial != made.serial
    ensures Nuke !in more && "c" in Exec(imported).db.certs && "c" in Exec(imported + more).db.certs
    ensures var (before, after) := (Exec(imported).db.certs["c"], Exec(imported + more).db.certs["c"]);
      && before.secrets.cert == leaf && after.secrets.cert.subject == leaf.subject
      && after.revokedAt.Some? && after.caId in Exec(imported + more).db.cas
      && !IsRevoked(Exec(imported + more).db.cas[after.caId].secrets.index, leaf.serial)
  {
    hide Apply;
    imported := [CreateCa("ca", "Root", made, false), Acquire(1, "ca", Import("c", "web"), 0), Act(1, ReadCa),
                 Act(1, CommitImport(leaf, "", "", "", ""))];
    var renewal := [Acquire(2, "ca", Renew("c"), 0), Act(2, ReadCa), Act(2, ReadCert),
                    Act(2, CommitRenew(leaf.subject, "new", "", ""))];
    var revocation := [Acquire(3, "ca", Revoke("c", ""), 0), Act(3, CheckUnrevoked), Act(3, ReadCa), Act(3, ReadCert),
                       Act(3, CommitRevoke(1))];
    more := renewal + revocation;
    NewCa(made);
    var created := Exec([imported[0]]);
    RunFour([], imported);
    assert [] + imported == imported;
    assert Exec([]) == Init();
    Imports(Apply(Init(), imported[0]), leaf);
    RunFour(imported, renewal);
    Renews(Exec(imported), leaf.subject);
    RunFour(imported + renewal, revocation[..4]);
    ExecThen(imported + renewal + revocation[..4], revocation[4]);
    assert imported + more == imported + renewal + revocation[..4] + [revocation[4]];
    Revokes(Exec(imported + renewal), leaf.serial);
  }

  lemma NewCa(made: CaSecrets)
    ensures var s := Apply(Init(), CreateCa("ca", "Root", made, false));
      && s.db.locks == map[] && s.db.certs == map[] && s.workers == map[] && ActiveCa(s.db, "ca")
      && s.db.cas["ca"].secrets.index == [] && s.db.cas["ca"].secrets.serial == made.serial
  {
  }

  lemma RunFour(run: seq<Step>, four: seq<Step>)
    requires |four| == 4
    ensures Exec(run + four) == Apply(Apply(Apply(Apply(Exec(run), four[0]), four[1]), four[2]), four[3])
  {
    hide Apply;
    ExecThen(run, four[0]);
    ExecThen(run + [four[0]], four[1]);
    ExecThen(run + [four[0]] + [four[1]], four[2]);
    ExecThen(run + [four[0]] + [four[1]] + [four[2]], four[3]);
    assert run + four == run + [four[0]] + [four[1]] + [four[2]] + [four[3]];
  }

  // ----- every certificate a row ever held -----

  lemma GrowsRefl(index: seq<Entry>)
    ensures Grows(index, index)
  {
  }

  /** The row is still there, under the same CA, and the CA's index has lost nothing. */
  ghost predicate RowGrows(s: Sys, s': Sys, cert: CertId)
    requires cert in s.db.certs
  {
    && cert in s'.db.certs && s'.db.certs[cert].caId == s.db.certs[cert].caId
    && (s.db.certs[cert].caId in s.db.cas ==>
          && s.db.certs[cert].caId in s'.db.cas
          && Grows(s.db.cas[s.db.certs[cert].caId].secrets.index, s'.db.cas[s.db.certs[cert].caId].secrets.index))
  }

  /** What a step does to a row's revocation: it stays, or it comes with every serial recorded under the row's subject. */
  ghost predicate RevokesHistory(s: Sys, s': Sys, cert: CertId)
    requires cert in s.db.certs && cert in s'.db.certs
  {
    s.db.certs[cert].revokedAt.None? && s'.db.certs[cert].revokedAt.Some? ==>
      && s'.db.certs[cert].secrets.cert == s.db.certs[cert].secrets.cert
      && s.db.certs[cert].caId in s.db.cas && s.db.certs[cert].caId in s'.db.cas
      && var before := s.db.cas[s.db.certs[cert].caId].secrets.index;
         var after := s'.db.cas[s.db.certs[cert].caId].secrets.index;
         var leaf := s.db.certs[cert].secrets.cert;
         HasEntry(before, leaf.serial, leaf.subject) ==>
           forall serial: nat :: HasEntry(before, serial, leaf.subject) ==> IsRevoked(after, serial)
  }

  /** A row without issuances has not changed its certificate. */
  ghost predicate KeepsUnissued(s: Sys, s': Sys, cert: CertId)
    requires cert in s.db.certs && cert in s'.db.certs
  {
    s'.history.Row(cert) == [] ==>
      s.history.Row(cert) == [] && s'.db.certs[cert].secrets.cert == s.db.certs[cert].secrets.cert
  }

  ghost predicate RowStep(s: Sys, s': Sys, cert: CertId)
    requires cert in s.db.certs
  {
    RowGrows(s, s', cert) && RevokesHistory(s, s', cert) && KeepsUnissued(s, s', cert)
  }

  lemma SameRowStep(s: Sys, s': Sys, cert: CertId)
    requires cert in s.db.certs && s'.db == s.db && s'.history == s.history
    ensures RowStep(s, s', cert)
  {
    hide Grows, HasEntry, IsRevoked;
    if s.db.certs[cert].caId in s.db.cas {
      GrowsRefl(s.db.cas[s.db.certs[cert].caId].secrets.index);
    }
  }

  lemma HolderIndex(s: Sys, owner: OwnerId)
    requires Inv(s) && owner in s.workers && HoldsLock(s.db, s.workers[owner].caId, owner)
    requires s.workers[owner].phase.GotCa? || s.workers[owner].phase.GotCert? || s.workers[owner].phase.GotCerts?
    ensures var w := s.workers[owner];
      w.caId in s.db.cas && w.phase.ca == s.db.cas[w.caId].secrets && DistinctSerials(w.phase.ca.index)
  {
    hide CertOk, ReadsCurrent, CrlOk, DistinctSerials;
    HolderReadCa(s, owner);
    CaOkIndex(s.db.cas[s.workers[owner].caId], s.history.Issued(s.workers[owner].caId),
              s.history.Published(s.workers[owner].caId));
  }

  lemma IssueRowStep(s: Sys, owner: OwnerId, m: Move, cert: CertId)
    requires Inv(s) && owner in s.workers && cert in s.db.certs && m.CommitIssue?
    ensures RowStep(s, ApplyIssue(s, owner, s.workers[owner], m), cert)
  {
    hide Inv, Grows, HasEntry, IsRevoked, DistinctSerials, IssueLeaf;
    var w := s.workers[owner];
    if s.db.certs[cert].caId in s.db.cas {
      GrowsRefl(s.db.cas[s.db.certs[cert].caId].secrets.index);
    }
    if w.phase.GotCa? && HoldsLock(s.db, w.caId, owner) && IssueLeaf(w.phase.ca, m.subject, m.rest).Some? {
      HolderIndex(s, owner);
      IssueLeafKeepsIndex(w.phase.ca, m.subject, m.rest);
    }
  }

  lemma ImportRowStep(s: Sys, owner: OwnerId, m: Move, cert: CertId)
    requires owner in s.workers && cert in s.db.certs && m.CommitImport?
    ensures RowStep(s, ApplyImport(s, owner, s.workers[owner], m), cert)
  {
    hide Grows, HasEntry, IsRevoked;
    if s.db.certs[cert].caId in s.db.cas {
      GrowsRefl(s.db.cas[s.db.certs[cert].caId].secrets.index);
    }
  }

  lemma RenewRowStep(s: Sys, owner: OwnerId, m: Move, cert: CertId)
    requires Inv(s) && owner in s.workers && cert in s.db.certs && m.CommitRenew?
    ensures RowStep(s, ApplyRenew(s, owner, s.workers[owner], m), cert)
  {
    hide Inv, Grows, HasEntry, IsRevoked, DistinctSerials, IssueLeaf;
    var w := s.workers[owner];
    if s.db.certs[cert].caId in s.db.cas {
      GrowsRefl(s.db.cas[s.db.certs[cert].caId].secrets.index);
    }
    if w.phase.GotCert? && HoldsLock(s.db, w.caId, owner) && IssueLeaf(w.phase.ca, m.subject, m.rest).Some? {
      HolderIndex(s, owner);
      IssueLeafKeepsIndex(w.phase.ca, m.subject, m.rest);
    }
  }

  lemma RevokeRowStep(s: Sys, owner: OwnerId, revokedAt: int, cert: CertId)
    requires Inv(s) && owner in s.workers && cert in s.db.certs
    ensures RowStep(s, ApplyRevoke(s, owner, s.workers[owner], revokedAt), cert)
  {
    hide Inv, Grows, HasEntry, IsRevoked, DistinctSerials, RevokeFiles;
    var w := s.workers[owner];
    if s.db.certs[cert].caId in s.db.cas {
      GrowsRefl(s.db.cas[s.db.certs[cert].caId].secrets.index);
    }
    if w.phase.GotCert? && HoldsLock(s.db, w.caId, owner) && RevokeFiles(w.phase.ca, w.phase.cert.cert).Some? {
      HolderIndex(s, owner);
      InvHolders(s);
      HolderReadCert(s, owner);
      RevokeFilesKeepsIndex(w.phase.ca, w.phase.cert.cert);
    }
  }

  lemma InvHolders(s: Sys)
    requires Inv(s)
    ensures HoldersOk(s)
  {
  }

  lemma RenewCaRowStep(s: Sys, owner: OwnerId, m: Move, cert: CertId)
    requires owner in s.workers && cert in s.db.certs && m.CommitRenewCa?
    ensures RowStep(s, ApplyRenewCa(s, owner, s.workers[owner], m), cert)
  {
    hide Grows, HasEntry, IsRevoked, GenerateCrl, RebuiltBundles;
    if s.db.certs[cert].caId in s.db.cas {
      GrowsRefl(s.db.cas[s.db.certs[cert].caId].secrets.index);
    }
  }

  lemma ActRowStep(s: Sys, owner: OwnerId, move: Move, cert: CertId)
    requires Inv(s) && owner in s.workers && cert in s.db.certs
    ensures RowStep(s, ApplyAct(s, owner, move), cert)
  {
    hide Inv, RowStep, ApplyIssue, ApplyImport, ApplyRenew, ApplyRevoke, ApplyRenewCa;
    match move
    case CommitIssue(_, _, _, _, _, _) => IssueRowStep(s, owner, move, cert);
    case CommitImport(_, _, _, _, _) => ImportRowStep(s, owner, move, cert);
    case CommitRenew(_, _, _, _) => RenewRowStep(s, owner, move, cert);
    case CommitRevoke(revokedAt) => RevokeRowStep(s, owner, revokedAt, cert);
    case CommitRenewCa(_, _, _) => RenewCaRowStep(s, owner, move, cert);
    case CheckUnrevoked => SameRowStep(s, ApplyAct(s, owner, move), cert);
    case ReadCa => SameRowStep(s, ApplyAct(s, owner, move), cert);
    case ReadCert => SameRowStep(s, ApplyAct(s, owner, move), cert);
    case ReadCerts => SameRowStep(s, ApplyAct(s, owner, move), cert);
    case GiveUp => ReleaseRowStep(s, owner, cert);
  }

  lemma ReleaseRowStep(s: Sys, owner: OwnerId, cert: CertId)
    requires owner in s.workers && cert in s.db.certs
    ensures RowStep(s, ApplyAct(s, owner, GiveUp), cert)
  {
    hide Grows, HasEntry, IsRevoked;
    if s.db.certs[cert].caId in s.db.cas {
      GrowsRefl(s.db.cas[s.db.certs[cert].caId].secrets.index);
    }
  }

  lemma UnlockedRowStep(s: Sys, step: Step, cert: CertId)
    requires !step.Act? && step != Nuke && cert in s.db.certs
    ensures RowStep(s, Apply(s, step), cert)
  {
    hide Grows, HasEntry, IsRevoked, ApplyAct, NewCaSecrets, LiveLocks, BackupCas, CaNameTaken, CertNameTaken;
    if s.db.certs[cert].caId in s.db.cas {
      GrowsRefl(s.db.cas[s.db.certs[cert].caId].secrets.index);
    }
    if IsQuiet(step) {
      hide Apply;
      QuietStep(s, step);
    }
  }

  lemma AnyRowStep(s: Sys, step: Step, cert: CertId)
    requires Inv(s) && step != Nuke && cert in s.db.certs
    ensures RowStep(s, Apply(s, step), cert)
  {
    hide Inv, RowStep, ApplyAct;
    if !step.Act? {
      UnlockedRowStep(s, step, cert);
    } else if step.owner in s.workers {
      ActRowStep(s, step.owner, step.move, cert);
    } else {
      ActOfNobody(s, step.owner, step.move);
      SameRowStep(s, s, cert);
    }
  }

  /** What a revoked row's invariant says of its own serial, and an issued row's of its own entry. */
  lemma OwnSerial(s: Sys, cert: CertId)
    requires Inv(s) && cert in s.db.certs
    ensures s.db.certs[cert].caId in s.db.cas
    ensures var (row, index) := (s.db.certs[cert], s.db.cas[s.db.certs[cert].caId].secrets.index);
      && (row.revokedAt.Some? ==> IsRevoked(index, row.secrets.cert.serial))
      && (s.history.Row(cert) != [] ==> HasEntry(index, row.secrets.cert.serial, row.secrets.cert.subject))
  {
    hide CaOk, IsRevoked, HasEntry;
    var row := s.db.certs[cert];
    assert CertOk(row, s.db.cas[row.caId], s.history.Row(cert), s.history.Issued(row.caId));
  }

  /** The leaf a row held at some point, once recorded in the index, is revoked with the row. */
  ghost predicate Reached(s: Sys, cert: CertId, caId: CaId, leaf: Leaf) {
    && cert in s.db.certs && s.db.certs[cert].caId == caId && caId in s.db.cas
    && HasEntry(s.db.cas[caId].secrets.index, leaf.serial, leaf.subject)
    && (s.history.Row(cert) == [] ==> s.db.certs[cert].secrets.cert == leaf)
    && (s.db.certs[cert].revokedAt.Some? && s.db.certs[cert].secrets.cert.subject == leaf.subject ==>
          IsRevoked(s.db.cas[caId].secrets.index, leaf.serial))
  }

  lemma StepKeepsReached(s: Sys, step: Step, cert: CertId, caId: CaId, leaf: Leaf)
    requires Inv(s) && step != Nuke && Reached(s, cert, caId, leaf)
    ensures Reached(Apply(s, step), cert, caId, leaf)
  {
    hide Inv, Apply, HasEntry, IsRevoked;
    var s' := Apply(s, step);
    AnyRowStep(s, step, cert);
    StepKeepsInv(s, step);
    OwnSerial(s, cert);
    OwnSerial(s', cert);
    if s.db.certs[cert].revokedAt.Some? {
      StepKeepsRevokedRow(s, step, cert);
    }
  }

  lemma {:induction false} RunKeepsReached(steps: seq<Step>, more: seq<Step>, cert: CertId, caId: CaId, leaf: Leaf)
    requires Nuke !in more && Reached(Exec(steps), cert, caId, leaf)
    ensures Reached(Exec(steps + more), cert, caId, leaf)
    decreases |more|
  {
    hide Apply, Reached, Inv;
    if more == [] {
      assert steps + more == steps;
    } else {
      var (rest, last) := (more[..|more| - 1], more[|more| - 1]);
      assert steps + more == (steps + rest) + [last] && last in more;
      ExecThen(steps + rest, last);
      RunKeepsReached(steps, rest, cert, caId, leaf);
      ExecKeepsInv(steps + rest);
      StepKeepsReached(Exec(steps + rest), last, cert, caId, leaf);
    }
  }

  /**
   A revocation reaches every certificate the row ever held, imported ones too, that carries the row's subject and that
   the index recorded while the row held it: until a nuke its serial is `R` from the revocation on.
   */
  lemma RevocationReachesHistory(steps: seq<Step>, more: seq<Step>, cert: CertId)
    requires Nuke !in more && cert in Exec(steps).db.certs
    ensures var leaf := Exec(steps).db.certs[cert].secrets.cert;
      var caId := Exec(steps).db.certs[cert].caId;
      && caId in Exec(steps).db.cas
      && (HasEntry(Exec(steps).db.cas[caId].secrets.index, leaf.serial, leaf.subject) ==>
            var t := Exec(steps + more).db;
            && cert in t.certs && caId in t.cas
            && (t.certs[cert].revokedAt.Some? && t.certs[cert].secrets.cert.subject == leaf.subject ==>
                  IsRevoked(t.cas[caId].secrets.index, leaf.serial)))
  {
    hide Apply, HasEntry, IsRevoked, Inv;
    ExecKeepsInv(steps);
    OwnSerial(Exec(steps), cert);
    var row := Exec(steps).db.certs[cert];
    if HasEntry(Exec(steps).db.cas[row.caId].secrets.index, row.secrets.cert.serial, row.secrets.cert.subject) {
      RunKeepsReached(steps, more, cert, row.caId, row.secrets.cert);
    }
  }

  // ----- serials and CRL numbers -----

  /** The serial this step put into a stored certificate by issuing or renewing, with its CA. */
  ghost function IssuedBy(s: Sys, step: Step): Option<(CaId, nat)> {
    if step.Act? && (step.move.CommitIssue? || step.move.CommitRenew?) && Commits(s, step.owner, step.move)
       && (s.workers[step.owner].call.Issue? || s.workers[step.owner].call.Renew?)
       && s.workers[step.owner].call.certId in Apply(s, step).db.certs
    then Some((s.workers[step.owner].caId,
               Apply(s, step).db.certs[s.workers[step.owner].call.certId].secrets.cert.serial))
    else None
  }

  /** The number of the CRL this step stored for the CA, if it stored a new one. */
  ghost function PublishedBy(s: Sys, step: Step, ca: CaId): Option<nat> {
    var t := Apply(s, step).db;
    if !step.PutBackup? && ca in t.cas && t.cas[ca].secrets.crl.Crl?
       && !(ca in s.db.cas && s.db.cas[ca].secrets.crl == t.cas[ca].secrets.crl)
    then Some(t.cas[ca].secrets.crl.number) else None
  }

  ghost predicate ExtendsHistory(h: History, h': History) {
    forall c :: h.Issued(c) <= h'.Issued(c) && h.Published(c) <= h'.Published(c)
  }

  lemma ActExtendsHistory(s: Sys, owner: OwnerId, move: Move)
    requires owner in s.workers
    ensures ExtendsHistory(s.history, ApplyAct(s, owner, move).history)
  {
    hide IssueLeaf, RevokeFiles, GenerateCrl, InsertCertWithState, UpdateCertWithState, RevokeCertWithState,
      RenewCaWithState, ReleaseCaLock, GetCert, GetCaSecrets, ListCertSecrets, RebuiltBundles;
  }

  lemma StepExtendsHistory(s: Sys, step: Step, ca: CaId)
    requires step != Nuke && ca in s.db.cas
    ensures ca in Apply(s, step).db.cas && ExtendsHistory(s.history, Apply(s, step).history)
  {
    hide ApplyAct, LockedChange;
    if step.Act? {
      if step.owner in s.workers {
        ActExtendsHistory(s, step.owner, step.move);
        ActKeepsCas(s, step.owner, step.move);
      } else {
        ActOfNobody(s, step.owner, step.move);
      }
    } else {
      UnlockedFreezesStep(s, step, ca);
    }
  }

  lemma ActKeepsCas(s: Sys, owner: OwnerId, move: Move)
    requires owner in s.workers
    ensures ApplyAct(s, owner, move).db.cas.Keys == s.db.cas.Keys
  {
    hide ApplyAct;
    ActIsLocked(s, owner, move);
  }

  lemma {:induction false} RunExtendsHistory(steps: seq<Step>, more: seq<Step>, ca: CaId)
    requires Nuke !in more && ca in Exec(steps).db.cas
    ensures ca in Exec(steps + more).db.cas
    ensures Exec(steps).history.Issued(ca) <= Exec(steps + more).history.Issued(ca)
    ensures Exec(steps).history.Published(ca) <= Exec(steps + more).history.Published(ca)
    decreases |more|
  {
    hide Apply;
    if more == [] {
      assert steps + more == steps;
    } else {
      var rest, last := more[..|more| - 1], more[|more| - 1];
      assert (steps + more)[..|steps + more| - 1] == steps + rest;
      assert last in more;
      RunExtendsHistory(steps, rest, ca);
      StepExtendsHistory(Exec(steps + rest), last, ca);
      assert Exec(steps + more) == Apply(Exec(steps + rest), last);
    }
  }

  /** An issued serial is new to the CA's history, and recorded in it. */
  lemma IssuedByIsFresh(s: Sys, step: Step)
    requires Inv(s) && IssuedBy(s, step).Some?
    ensures var (ca, serial) := IssuedBy(s, step).value;
      && ca in s.db.cas && serial !in s.history.Issued(ca)
      && Apply(s, step).history.Issued(ca) == s.history.Issued(ca) + [serial]
  {
    hide RowsOk;
    var w := s.workers[step.owner];
    CommitNeedsLock(s, step.owner, step.move);
    var (leaf, index, _) := IssueLeaf(w.phase.ca, step.move.subject, step.move.rest).value;
    IssuedInIndex(s, w.caId);
  }

  lemma IssuedInIndex(s: Sys, ca: CaId)
    requires Inv(s) && ca in s.db.cas
    ensures forall n :: n in s.history.Issued(ca) ==> HasSerial(s.db.cas[ca].secrets.index, n)
  {
    assert CaOk(s.db.cas[ca], s.history.Issued(ca), s.history.Published(ca));
  }

  /**
   Between nukes, two certificates committed under one CA by issue or renew never share a serial
   (section 4.1.2.2 of RFC 5280). The run is `before`, the first commit, `between`, the second commit.
   */
  lemma CommittedSerialsDiffer(before: seq<Step>, first: Step, between: seq<Step>, second: Step)
    requires Nuke !in between
    requires IssuedBy(Exec(before), first).Some?
    requires IssuedBy(Exec(before + [first] + between), second).Some?
    requires IssuedBy(Exec(before), first).value.0 == IssuedBy(Exec(before + [first] + between), second).value.0
    ensures IssuedBy(Exec(before), first).value.1 != IssuedBy(Exec(before + [first] + between), second).value.1
  {
    hide Apply;
    var (ca, serial) := IssuedBy(Exec(before), first).value;
    ExecKeepsInv(before);
    IssuedByIsFresh(Exec(before), first);
    assert (before + [first])[..|before|] == before;
    assert Exec(before + [first]) == Apply(Exec(before), first);
    ExecKeepsInv(before + [first]);
    assert Exec(before + [first]).history.Issued(ca)[|Exec(before).history.Issued(ca)|] == serial;
    StepKeepsCa(Exec(before), first, ca);
    RunExtendsHistory(before + [first], between, ca);
    ExecKeepsInv(before + [first] + between);
    IssuedByIsFresh(Exec(before + [first] + between), second);
  }

  lemma StepKeepsCa(s: Sys, step: Step, ca: CaId)
    requires Inv(s) && ca in s.db.cas && IssuedBy(s, step).Some?
    ensures ca in Apply(s, step).db.cas
  {
    StepExtendsHistory(s, step, ca);
  }

  lemma PublishedByIsLast(s: Sys, step: Step, ca: CaId)
    requires Inv(s) && PublishedBy(s, step, ca).Some?
    ensures ca in Apply(s, step).db.cas
    ensures Apply(s, step).history.Published(ca) == s.history.Published(ca) + [PublishedBy(s, step, ca).value]
  {
    hide RowsOk, HoldersOk, LocksOk, ApplyAct;
    if step.Act? {
      if step.owner in s.workers {
        ActPublishes(s, step.owner, step.move, ca);
      } else {
        ActOfNobody(s, step.owner, step.move);
      }
    } else if ca in s.db.cas {
      UnlockedFreezesStep(s, step, ca);
    } else {
      NewCaHistory(s, ca);
    }
  }

  lemma NewCaHistory(s: Sys, ca: CaId)
    requires Inv(s) && ca !in s.db.cas
    ensures s.history.Published(ca) == [] && s.history.Issued(ca) == []
  {
  }

  /** A worker's move changes a stored CRL only by publishing the next number. */
  lemma ActPublishes(s: Sys, owner: OwnerId, move: Move, ca: CaId)
    requires HoldersOk(s) && owner in s.workers && ca in ApplyAct(s, owner, move).db.cas
    ensures ca in s.db.cas
    ensures var crl := ApplyAct(s, owner, move).db.cas[ca].secrets.crl;
      crl == s.db.cas[ca].secrets.crl
      || (crl.Crl? && ApplyAct(s, owner, move).history.Published(ca) == s.history.Published(ca) + [crl.number])
  {
    hide IssueLeaf, ReadsCurrent, RevokeSuperseded, RevokeLeaf, RevokedSerials, WithBundles, RebuiltBundles;
    ActKeepsCas(s, owner, move);
    var w := s.workers[owner];
    if HoldsLock(s.db, w.caId, owner) && (w.phase.GotCert? || w.phase.GotCerts?) {
      HolderReadCa(s, owner);
    }
  }

  lemma PublishedIsStored(s: Sys, ca: CaId)
    requires Inv(s) && ca in s.db.cas
    ensures CrlOk(s.db.cas[ca].secrets, s.history.Published(ca))
    ensures Increasing(s.history.Published(ca))
  {
    assert CaOk(s.db.cas[ca], s.history.Issued(ca), s.history.Published(ca));
  }

  /** Between nukes, the CRL numbers a CA publishes strictly increase (section 5.2.3 of RFC 5280). */
  lemma CrlNumbersIncrease(before: seq<Step>, first: Step, between: seq<Step>, second: Step, ca: CaId)
    requires Nuke !in between
    requires PublishedBy(Exec(before), first, ca).Some?
    requires PublishedBy(Exec(before + [first] + between), second, ca).Some?
    ensures PublishedBy(Exec(before), first, ca).value < PublishedBy(Exec(before + [first] + between), second, ca).value
  {
    hide Apply, PublishedBy;
    ExecKeepsInv(before);
    PublishedByIsLast(Exec(before), first, ca);
    assert (before + [first])[..|before|] == before;
    var n1 := PublishedBy(Exec(before), first, ca).value;
    assert Exec(before + [first]).history.Published(ca)[|Exec(before).history.Published(ca)|] == n1;
    RunExtendsHistory(before + [first], between, ca);
    var s := Exec(before + [first] + between);
    ExecKeepsInv(before + [first] + between);
    PublishedByIsLast(s, second, ca);
    var n2 := PublishedBy(s, second, ca).value;
    StepKeepsInv(s, second);
    PublishedIsStored(Apply(s, second), ca);
    assert Apply(s, second).history.Published(ca)[|Exec(before).history.Published(ca)|] == n1;
    assert Apply(s, second).history.Published(ca)[|s.history.Published(ca)|] == n2;
  }
}
