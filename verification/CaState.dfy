/** Which steps may touch which part of a stored row, and what that makes of whole runs. */
module CaState {
  import opened Wrappers
  import opened CaTables
  import opened CaProtocol
  import opened CaInvariants
  import opened CaTheorems

  predicate Issues(step: Step) {
    step.Act? && (step.move.CommitIssue? || step.move.CommitRenew?)
  }

  predicate Revokes(step: Step) {
    step.Act? && step.move.CommitRevoke?
  }

  predicate RenewsCa(step: Step) {
    step.Act? && step.move.CommitRenewCa?
  }

  /** What a step may do to a CA's row: each part changes in its own transactions only. */
  ghost predicate CaMoves(a: CaRow, b: CaRow, step: Step) {
    var (before, after) := (a.secrets, b.secrets);
    && b.commonName == a.commonName && after.key == before.key && after.password == before.password
    && (after.serial == before.serial || (Issues(step) && after.serial == before.serial + 1))
    && (after.index == before.index || Issues(step) || Revokes(step))
    && ((after.cert == before.cert && after.pkcs12 == before.pkcs12) || RenewsCa(step))
    && ((after.crl == before.crl && after.crlNumber == before.crlNumber) || Revokes(step)
        || (RenewsCa(step) && step.move.crlEnabled))
  }

  ghost predicate CertMoves(a: CertRow, b: CertRow, step: Step) {
    var (before, after) := (a.secrets, b.secrets);
    && b.caId == a.caId && b.commonName == a.commonName
    && after.key == before.key && after.csr == before.csr && after.password == before.password
    && ((after.cert == before.cert && after.pkcs12 == before.pkcs12) || (step.Act? && step.move.CommitRenew?))
    && (after.bundle == before.bundle || (step.Act? && step.move.CommitRenew?) || RenewsCa(step))
    && ((b.revokedAt == a.revokedAt && b.reason == a.reason) || Revokes(step))
  }

  /** The serial has moved on by as many as were issued. */
  ghost predicate Counts(s: Sys, s': Sys, ca: CaId) {
    && ca in s.db.cas && ca in s'.db.cas
    && s'.db.cas[ca].secrets.serial + |s.history.Issued(ca)| == s.db.cas[ca].secrets.serial + |s'.history.Issued(ca)|
  }

  ghost predicate CaStep(s: Sys, s': Sys, ca: CaId, step: Step) {
    ca in s.db.cas && Counts(s, s', ca) && CaMoves(s.db.cas[ca], s'.db.cas[ca], step)
  }

  ghost predicate CertStep(s: Sys, s': Sys, cert: CertId, step: Step) {
    cert in s.db.certs && cert in s'.db.certs && CertMoves(s.db.certs[cert], s'.db.certs[cert], step)
  }

  lemma IssueCaStep(s: Sys, owner: OwnerId, m: Move, ca: CaId)
    requires Inv(s) && owner in s.workers && ca in s.db.cas && m.CommitIssue?
    ensures CaStep(s, ApplyIssue(s, owner, s.workers[owner], m), ca, Act(owner, m))
  {
    hide Inv, FindSerial;
    var w := s.workers[owner];
    if w.phase.GotCa? && HoldsLock(s.db, w.caId, owner) {
      InvHolders(s);
      HolderReadCa(s, owner);
    }
  }

  lemma RenewCaStep(s: Sys, owner: OwnerId, m: Move, ca: CaId)
    requires Inv(s) && owner in s.workers && ca in s.db.cas && m.CommitRenew?
    ensures CaStep(s, ApplyRenew(s, owner, s.workers[owner], m), ca, Act(owner, m))
  {
    hide Inv, FindSerial;
    var w := s.workers[owner];
    if w.phase.GotCert? && HoldsLock(s.db, w.caId, owner) {
      InvHolders(s);
      HolderReadCa(s, owner);
    }
  }

  lemma RevokeCaStep(s: Sys, owner: OwnerId, revokedAt: int, ca: CaId)
    requires Inv(s) && owner in s.workers && ca in s.db.cas
    ensures CaStep(s, ApplyRevoke(s, owner, s.workers[owner], revokedAt), ca, Act(owner, CommitRevoke(revokedAt)))
  {
    hide Inv, RevokeFiles;
    var w := s.workers[owner];
    if w.phase.GotCert? && HoldsLock(s.db, w.caId, owner) {
      InvHolders(s);
      HolderReadCa(s, owner);
    }
  }

  lemma ImportCaStep(s: Sys, owner: OwnerId, m: Move, ca: CaId)
    requires owner in s.workers && ca in s.db.cas && m.CommitImport?
    ensures CaStep(s, ApplyImport(s, owner, s.workers[owner], m), ca, Act(owner, m))
  {
  }

  lemma CaRenewalStep(s: Sys, owner: OwnerId, m: Move, ca: CaId)
    requires owner in s.workers && ca in s.db.cas && m.CommitRenewCa?
    ensures CaStep(s, ApplyRenewCa(s, owner, s.workers[owner], m), ca, Act(owner, m))
  {
    hide RebuiltBundles, WithBundles, GenerateCrl;
  }

  lemma ActCaStep(s: Sys, owner: OwnerId, move: Move, ca: CaId)
    requires Inv(s) && owner in s.workers && ca in s.db.cas
    ensures CaStep(s, ApplyAct(s, owner, move), ca, Act(owner, move))
  {
    hide Inv, ApplyIssue, ApplyImport, ApplyRenew, ApplyRevoke, ApplyRenewCa;
    match move
    case CommitIssue(_, _, _, _, _, _) => IssueCaStep(s, owner, move, ca);
    case CommitImport(_, _, _, _, _) => ImportCaStep(s, owner, move, ca);
    case CommitRenew(_, _, _, _) => RenewCaStep(s, owner, move, ca);
    case CommitRevoke(revokedAt) => RevokeCaStep(s, owner, revokedAt, ca);
    case CommitRenewCa(_, _, _) => CaRenewalStep(s, owner, move, ca);
    case CheckUnrevoked =>
    case ReadCa =>
    case ReadCert =>
    case ReadCerts =>
    case GiveUp =>
  }

  lemma SameCaStep(s: Sys, ca: CaId, step: Step)
    requires ca in s.db.cas
    ensures CaStep(s, s, ca, step)
  {
  }

  lemma UnlockedCaStep(s: Sys, step: Step, ca: CaId)
    requires !step.Act? && step != Nuke && ca in s.db.cas
    ensures CaStep(s, Apply(s, step), ca, step)
  {
    hide ApplyAct, NewCaSecrets, LiveLocks, BackupCas, CaNameTaken, CertNameTaken;
  }

  lemma AnyCaStep(s: Sys, step: Step, ca: CaId)
    requires Inv(s) && step != Nuke && ca in s.db.cas
    ensures CaStep(s, Apply(s, step), ca, step)
  {
    hide Inv, CaStep, ApplyAct;
    if !step.Act? {
      UnlockedCaStep(s, step, ca);
    } else if step.owner in s.workers {
      ActCaStep(s, step.owner, step.move, ca);
    } else {
      ActOfNobody(s, step.owner, step.move);
      SameCaStep(s, ca, step);
    }
  }

  /**
   Only issuing and renewing a certificate moves a CA's serial, by one; only they and a revocation touch the index,
   only a CA renewal its certificate and PKCS#12, and nothing its key, password and name.
   */
  lemma OnlyIssuingMovesSerial(steps: seq<Step>, step: Step, ca: CaId)
    requires step != Nuke && ca in Exec(steps).db.cas
    ensures ca in Exec(steps + [step]).db.cas
    ensures CaMoves(Exec(steps).db.cas[ca], Exec(steps + [step]).db.cas[ca], step)
  {
    hide Inv, Apply, CaMoves;
    ExecKeepsInv(steps);
    AnyCaStep(Exec(steps), step, ca);
    assert (steps + [step])[..|steps|] == steps;
  }

  lemma CountsOnwards(a: Sys, b: Sys, c: Sys, ca: CaId)
    requires Counts(a, b, ca) && Counts(b, c, ca)
    ensures Counts(a, c, ca)
  {
  }

  /** Between nukes a CA's next serial moves on by exactly the number of certificates issued and renewed. */
  lemma {:induction false} SerialCountsIssuances(steps: seq<Step>, more: seq<Step>, ca: CaId)
    requires Nuke !in more && ca in Exec(steps).db.cas
    ensures ca in Exec(steps + more).db.cas
    ensures var (s, s') := (Exec(steps), Exec(steps + more));
      s'.db.cas[ca].secrets.serial - s.db.cas[ca].secrets.serial
      == |s'.history.Issued(ca)| - |s.history.Issued(ca)|
    decreases |more|
  {
    hide Inv, Apply, CaMoves;
    if more == [] {
      assert steps + more == steps;
    } else {
      var rest, last := more[..|more| - 1], more[|more| - 1];
      assert last in more;
      SerialCountsIssuances(steps, rest, ca);
      ExecKeepsInv(steps + rest);
      AnyCaStep(Exec(steps + rest), last, ca);
      assert (steps + more)[..|steps + more| - 1] == steps + rest;
      assert Exec(steps + more) == Apply(Exec(steps + rest), last);
    }
  }

  // ----- certificate rows -----

  lemma ActCertStep(s: Sys, owner: OwnerId, move: Move, cert: CertId)
    requires owner in s.workers && cert in s.db.certs
    ensures CertStep(s, ApplyAct(s, owner, move), cert, Act(owner, move))
  {
    hide IssueLeaf, RevokeFiles, GenerateCrl, RebuiltBundles, GetCert, GetCaSecrets, ListCertSecrets;
  }

  lemma AnyCertStep(s: Sys, step: Step, cert: CertId)
    requires step != Nuke && cert in s.db.certs
    ensures CertStep(s, Apply(s, step), cert, step)
  {
    hide ApplyAct, NewCaSecrets, LiveLocks, BackupCas, CaNameTaken, CertNameTaken;
    if step.Act? {
      if step.owner in s.workers {
        ActCertStep(s, step.owner, step.move, cert);
      } else {
        ActOfNobody(s, step.owner, step.move);
      }
    }
  }

  /** Only a renewal replaces a row's certificate and PKCS#12, only renewals its bundle, only a revocation its reason. */
  lemma OnlyRenewalReplacesCert(steps: seq<Step>, step: Step, cert: CertId)
    requires step != Nuke && cert in Exec(steps).db.certs
    ensures cert in Exec(steps + [step]).db.certs
    ensures CertMoves(Exec(steps).db.certs[cert], Exec(steps + [step]).db.certs[cert], step)
  {
    hide Apply, CertMoves;
    AnyCertStep(Exec(steps), step, cert);
    assert (steps + [step])[..|steps|] == steps;
  }

  ghost predicate SameKeys(a: CertRow, b: CertRow) {
    && b.caId == a.caId && b.commonName == a.commonName
    && b.secrets.key == a.secrets.key && b.secrets.csr == a.secrets.csr && b.secrets.password == a.secrets.password
  }

  /** Until a nuke a certificate row stays under its CA, with its name, key, signing request and password. */
  lemma {:induction false} KeysStay(steps: seq<Step>, more: seq<Step>, cert: CertId)
    requires Nuke !in more && cert in Exec(steps).db.certs
    ensures cert in Exec(steps + more).db.certs
    ensures SameKeys(Exec(steps).db.certs[cert], Exec(steps + more).db.certs[cert])
    decreases |more|
  {
    hide Apply;
    if more == [] {
      assert steps + more == steps;
    } else {
      var rest, last := more[..|more| - 1], more[|more| - 1];
      assert last in more;
      KeysStay(steps, rest, cert);
      AnyCertStep(Exec(steps + rest), last, cert);
      assert (steps + more)[..|steps + more| - 1] == steps + rest;
      assert Exec(steps + more) == Apply(Exec(steps + rest), last);
    }
  }
}
