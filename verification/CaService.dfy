/**
 The critical sections of src/service.rs as code over the mutable store. Every read and every transaction they make is
 a step of the protocol's worker, so a call is a run and every theorem about runs speaks of it.
 */
module CaService {
  import opened Wrappers
  import opened CaTables
  import opened CaProtocol
  import opened CaDb
  import opened CaInvariants

  /** Every step of the run after the first `from` ones is the worker's own. */
  ghost predicate OwnSince(steps: seq<Step>, from: nat, owner: OwnerId) {
    forall i :: from <= i < |steps| ==> (steps[i].Acquire? || steps[i].Act?) && steps[i].owner == owner
  }

  /** No live lock row is in the way of the CA's next one. */
  ghost predicate Free(t: Tables, caId: CaId, now: int) {
    !(caId in t.locks && t.locks[caId].expiresAt >= now)
  }

  /** What a call that took the CA's lock at `now` leaves of the lock rows: the live ones of other CAs. */
  ghost predicate LocksLeft(before: map<CaId, LockRow>, after: map<CaId, LockRow>, caId: CaId, now: int) {
    && (forall c :: c in after <==> c in before && before[c].expiresAt >= now && c != caId)
    && (forall c :: c in after ==> after[c] == before[c])
  }

  /** Exactly the entries a revocation turns to `R`: the certificate's own and those under its recorded subject. */
  ghost predicate RevokesEntries(before: seq<Entry>, leaf: Leaf, after: seq<Entry>) {
    var k := FindSerial(before, leaf.serial);
    var subject := if k < |before| then before[k].subject else leaf.subject;
    && |after| == (if HasSerial(before, leaf.serial) then |before| else |before| + 1)
    && (!HasSerial(before, leaf.serial) ==> after[|before|] == Entry(Revoked, leaf.serial, leaf.subject))
    && (forall i :: 0 <= i < |before| ==>
          after[i] == if i == k || before[i].subject == subject then before[i].(status := Revoked) else before[i])
  }

  /** `after` holds the CRL that follows `before`: the next number, and the serials that are `R` in the index. */
  ghost predicate RefreshesCrl(before: Option<nat>, after: CaSecrets) {
    var number := if before.Some? then before.value else 1;
    && after.crl.Crl? && after.crl.number == number && after.crlNumber == Some(number + 1)
    && (forall serial: nat :: serial in after.crl.serials <==> IsRevoked(after.index, serial))
  }

  class Service {
    const db: Db
    /** The run the store has been through. */
    ghost var steps: seq<Step>

    ghost function Sys(): Sys
      reads this
    {
      Exec(steps)
    }

    ghost predicate Valid()
      reads this, db
    {
      Sys().db == db.State()
    }

    /** The worker `owner` has come this far with its call. */
    ghost predicate At(owner: OwnerId, caId: CaId, call: Call, phase: Phase)
      reads this, db
    {
      Valid() && owner in Sys().workers && Sys().workers[owner] == Worker(caId, call, phase)
    }

    constructor (db: Db)
      requires db.State() == Tables(map[], map[], map[])
      ensures Valid() && this.db == db && steps == []
    {
      this.db := db;
      steps := [];
    }

    /** Records a step the store has taken. */
    ghost method Took(step: Step)
      requires Apply(Sys(), step).db == db.State()
      modifies this`steps
      ensures Valid() && steps == old(steps) + [step] && Sys() == Apply(old(Sys()), step)
    {
      hide Apply;
      assert (steps + [step])[..|steps|] == steps;
      steps := steps + [step];
    }

    method Acquire(owner: OwnerId, caId: CaId, call: Call, now: int) returns (ok: bool)
      requires Valid() && owner !in Sys().workers
      modifies this, db
      ensures Valid() && db.cas == old(db.cas) && db.certs == old(db.certs)
      ensures ok <==> caId in old(db.cas) && Free(old(db.State()), caId, now)
      ensures ok ==> caId in db.locks && db.locks[caId] == LockRow(owner, now + 120_000)
                     && LocksLeft(old(db.locks), db.locks - {caId}, caId, now)
      ensures ok ==> At(owner, caId, call, Locked) && steps == old(steps) + [Step.Acquire(owner, caId, call, now)]
      ensures !ok ==> db.State() == old(db.State()) && steps == old(steps)
    {
      hide Exec;
      var r := db.AcquireCaLock(caId, owner, now, LOCK_TTL_MS);
      if r.Err? {
        return false;
      }
      Took(Step.Acquire(owner, caId, call, now));
      return true;
    }

    /** A failed call gives its lock back. */
    method Release(owner: OwnerId, ghost call: Call, caId: CaId, ghost phase: Phase)
      requires At(owner, caId, call, phase)
      modifies this, db
      ensures Valid() && At(owner, caId, call, Finished) && steps == old(steps) + [Act(owner, GiveUp)]
      ensures db.cas == old(db.cas) && db.certs == old(db.certs)
      ensures db.locks == if HoldsLock(old(db.State()), caId, owner) then old(db.locks) - {caId} else old(db.locks)
    {
      hide Exec;
      db.ReleaseCaLock(caId, owner);
      Took(Act(owner, GiveUp));
    }

    // ----- reads under the lock -----

    method CheckUnrevoked(owner: OwnerId, caId: CaId, certId: CertId, ghost call: Call) returns (ok: bool)
      requires call.Revoke? && call.certId == certId && At(owner, caId, call, Locked)
      modifies this`steps
      ensures Valid()
      ensures ok <==>
              GetCert(db.State(), caId, certId).Some? && GetCert(db.State(), caId, certId).value.revokedAt.None?
      ensures ok ==> At(owner, caId, call, Unrevoked) && steps == old(steps) + [Act(owner, Move.CheckUnrevoked)]
      ensures !ok ==> steps == old(steps)
    {
      hide Exec;
      var cert := GetCert(db.State(), caId, certId);
      ok := cert.Some? && cert.value.revokedAt.None?;
      if ok {
        Took(Act(owner, Move.CheckUnrevoked));
      }
    }

    method ReadCa(owner: OwnerId, caId: CaId, ghost call: Call) returns (ca: Option<CaSecrets>)
      requires At(owner, caId, call, if call.Revoke? then Unrevoked else Locked)
      modifies this`steps
      ensures Valid()
      ensures ca == GetCaSecrets(db.State(), caId)
      ensures ca.Some? ==> At(owner, caId, call, GotCa(ca.value)) && steps == old(steps) + [Act(owner, Move.ReadCa)]
      ensures ca.None? ==> steps == old(steps)
    {
      hide Exec;
      ca := GetCaSecrets(db.State(), caId);
      if ca.Some? {
        Took(Act(owner, Move.ReadCa));
      }
    }

    method ReadCert(owner: OwnerId, caId: CaId, certId: CertId, ghost call: Call, ghost ca: CaSecrets)
      returns (cert: Option<CertSecrets>)
      requires (call.Revoke? || call.Renew?) && call.certId == certId && At(owner, caId, call, GotCa(ca))
      modifies this`steps
      ensures Valid()
      ensures cert.Some? <==> GetCert(db.State(), caId, certId).Some?
      ensures cert.Some? ==> cert.value == db.certs[certId].secrets
      ensures cert.Some? ==> At(owner, caId, call, GotCert(ca, cert.value))
                             && steps == old(steps) + [Act(owner, Move.ReadCert)]
      ensures cert.None? ==> steps == old(steps)
    {
      hide Exec;
      var row := GetCert(db.State(), caId, certId);
      if row.None? {
        return None;
      }
      Took(Act(owner, Move.ReadCert));
      return Some(row.value.secrets);
    }

    method ReadCerts(owner: OwnerId, caId: CaId, ghost ca: CaSecrets) returns (certs: map<CertId, CertSecrets>)
      requires At(owner, caId, Call.RenewCa, GotCa(ca))
      modifies this`steps
      ensures Valid()
      ensures certs == ListCertSecrets(db.State(), caId)
      ensures At(owner, caId, Call.RenewCa, GotCerts(ca, certs)) && steps == old(steps) + [Act(owner, Move.ReadCerts)]
    {
      hide Exec;
      certs := ListCertSecrets(db.State(), caId);
      Took(Act(owner, Move.ReadCerts));
    }

    // ----- the transactions that end a call -----

    method CommitRevoke(owner: OwnerId, caId: CaId, certId: CertId, reason: string, revokedAt: int, ca: CaSecrets,
                        cert: CertSecrets)
      returns (ok: bool)
      requires At(owner, caId, Revoke(certId, reason), GotCert(ca, cert)) && RevokeFiles(ca, cert.cert).Some?
      modifies this, db
      ensures Valid()
      ensures ok ==> At(owner, caId, Revoke(certId, reason), Finished)
                     && steps == old(steps) + [Act(owner, Move.CommitRevoke(revokedAt))]
      ensures ok <==> HoldsLock(old(db.State()), caId, owner) && GetCert(old(db.State()), caId, certId).Some?
      ensures ok ==>
                var (index, crl, number) := RevokeFiles(ca, cert.cert).value;
                && db.certs == old(db.certs)[certId := old(db.certs[certId]).(
                     revokedAt := Some(revokedAt), reason := Some(reason))]
                && db.cas == old(db.cas)[caId := old(db.cas[caId]).(secrets := old(db.cas[caId]).secrets.(
                     index := index, serial := ca.serial, crl := crl, crlNumber := Some(number)))]
      ensures !ok ==> steps == old(steps) && db.State() == old(db.State())
      ensures !ok ==> At(owner, caId, Revoke(certId, reason), GotCert(ca, cert))
      ensures ok ==> db.locks == old(db.locks) - {caId}
    {
      hide Exec, RevokeFiles;
      var (index, crl, number) := RevokeFiles(ca, cert.cert).value;
      var r := db.RevokeCertWithState(caId, certId, reason, revokedAt, (index, ca.serial), (crl, number), owner);
      ok := r.Ok?;
      if ok {
        Took(Act(owner, Move.CommitRevoke(revokedAt)));
      }
    }

    method CommitRenew(owner: OwnerId, caId: CaId, certId: CertId, ca: CaSecrets, cert: CertSecrets,
                       subject: string, rest: Blob, csr: Blob, pkcs12: Blob)
      returns (ok: bool)
      requires At(owner, caId, Renew(certId), GotCert(ca, cert)) && IssueLeaf(ca, subject, rest).Some?
      modifies this, db
      ensures Valid()
      ensures ok ==> At(owner, caId, Renew(certId), Finished)
                     && steps == old(steps) + [Act(owner, Move.CommitRenew(subject, rest, csr, pkcs12))]
      ensures ok <==> HoldsLock(old(db.State()), caId, owner) && GetCert(old(db.State()), caId, certId).Some?
                      && old(db.certs[certId]).revokedAt.None?
      ensures ok ==>
                var (leaf, index, serial) := IssueLeaf(ca, subject, rest).value;
                && db.certs == old(db.certs)[certId := old(db.certs[certId]).(
                     secrets := old(db.certs[certId]).secrets.(
                       cert := leaf, pkcs12 := pkcs12,
                       bundle := Bundle(csr, cert.key, pkcs12, leaf, cert.password, ca.cert)))]
                && db.cas == old(db.cas)[caId := old(db.cas[caId]).(
                     secrets := old(db.cas[caId]).secrets.(index := index, serial := serial))]
      ensures !ok ==> steps == old(steps) && db.State() == old(db.State())
      ensures !ok ==> At(owner, caId, Renew(certId), GotCert(ca, cert))
      ensures ok ==> db.locks == old(db.locks) - {caId}
    {
      hide Exec, IssueLeaf;
      var (leaf, index, serial) := IssueLeaf(ca, subject, rest).value;
      var bundle := Bundle(csr, cert.key, pkcs12, leaf, cert.password, ca.cert);
      var r := db.UpdateCertWithState(caId, certId, leaf, pkcs12, bundle, (index, serial), owner);
      ok := r.Ok?;
      if ok {
        Took(Act(owner, Move.CommitRenew(subject, rest, csr, pkcs12)));
      }
    }

    method CommitIssue(owner: OwnerId, caId: CaId, certId: CertId, commonName: string, ca: CaSecrets,
                       subject: string, rest: Blob,
                       key: Blob, csr: Blob, pkcs12: Blob, password: Blob)
      returns (ok: bool)
      requires At(owner, caId, Issue(certId, commonName), GotCa(ca)) && IssueLeaf(ca, subject, rest).Some?
      modifies this, db
      ensures Valid()
      ensures ok ==> At(owner, caId, Issue(certId, commonName), Finished)
                     && steps == old(steps) + [Act(owner, Move.CommitIssue(subject, rest, key, csr, pkcs12, password))]
      ensures ok <==>
              HoldsLock(old(db.State()), caId, owner) && ActiveCa(old(db.State()), caId) && certId !in old(db.certs)
      ensures ok ==>
                var (leaf, index, serial) := IssueLeaf(ca, subject, rest).value;
                && db.certs == old(db.certs)[certId := CertRow(
                     caId, commonName,
                     CertSecrets(leaf, key, csr, pkcs12, password, Bundle(csr, key, pkcs12, leaf, password, ca.cert)),
                     false, None, None)]
                && db.cas == old(db.cas)[caId := old(db.cas[caId]).(
                     secrets := old(db.cas[caId]).secrets.(index := index, serial := serial))]
      ensures !ok ==> steps == old(steps) && db.State() == old(db.State())
      ensures !ok ==> At(owner, caId, Issue(certId, commonName), GotCa(ca))
      ensures ok ==> db.locks == old(db.locks) - {caId}
    {
      hide Exec, IssueLeaf;
      var (leaf, index, serial) := IssueLeaf(ca, subject, rest).value;
      var secrets := CertSecrets(leaf, key, csr, pkcs12, password, Bundle(csr, key, pkcs12, leaf, password, ca.cert));
      var r := db.InsertCertWithState(certId, caId, commonName, secrets, Some((index, serial)), owner);
      ok := r.Ok?;
      if ok {
        Took(Act(owner, Move.CommitIssue(subject, rest, key, csr, pkcs12, password)));
      }
    }

    method CommitImport(owner: OwnerId, caId: CaId, certId: CertId, commonName: string, ca: CaSecrets, cert: Leaf,
                        key: Blob, csr: Blob, pkcs12: Blob, password: Blob)
      returns (ok: bool)
      requires At(owner, caId, Import(certId, commonName), GotCa(ca))
      modifies this, db
      ensures Valid()
      ensures ok ==> At(owner, caId, Import(certId, commonName), Finished)
                     && steps == old(steps) + [Act(owner, Move.CommitImport(cert, key, csr, pkcs12, password))]
      ensures ok <==>
              HoldsLock(old(db.State()), caId, owner) && ActiveCa(old(db.State()), caId) && certId !in old(db.certs)
      ensures ok ==> db.cas == old(db.cas)
                     && db.certs == old(db.certs)[certId := CertRow(
                          caId, commonName,
                          CertSecrets(cert, key, csr, pkcs12, password,
                                      Bundle(csr, key, pkcs12, cert, password, ca.cert)),
                          false, None, None)]
      ensures !ok ==> steps == old(steps) && db.State() == old(db.State())
      ensures !ok ==> At(owner, caId, Import(certId, commonName), GotCa(ca))
      ensures ok ==> db.locks == old(db.locks) - {caId}
    {
      hide Exec;
      var secrets := CertSecrets(cert, key, csr, pkcs12, password, Bundle(csr, key, pkcs12, cert, password, ca.cert));
      var r := db.InsertCertWithState(certId, caId, commonName, secrets, None, owner);
      ok := r.Ok?;
      if ok {
        assert db.cas == old(db.cas);
        Took(Act(owner, Move.CommitImport(cert, key, csr, pkcs12, password)));
      }
    }

    method CommitRenewCa(owner: OwnerId, caId: CaId, ca: CaSecrets, certs: map<CertId, CertSecrets>, newCert: Blob,
                         newPkcs12: Blob, crlEnabled: bool)
      returns (ok: bool)
      requires At(owner, caId, Call.RenewCa, GotCerts(ca, certs))
      modifies this, db
      ensures Valid()
      ensures ok ==> At(owner, caId, Call.RenewCa, Finished)
                     && steps == old(steps) + [Act(owner, Move.CommitRenewCa(newCert, newPkcs12, crlEnabled))]
      ensures ok <==> HoldsLock(old(db.State()), caId, owner) && ActiveCa(old(db.State()), caId)
      ensures ok ==>
                var renewed := old(db.cas[caId]).secrets.(cert := newCert, pkcs12 := newPkcs12);
                && db.cas == old(db.cas)[caId := old(db.cas[caId]).(
                     secrets := if crlEnabled
                                then renewed.(crl := GenerateCrl(ca).0, crlNumber := Some(GenerateCrl(ca).1))
                                else renewed,
                     truststore := NoTruststore)]
                && db.certs == WithBundles(old(db.certs), caId, RebuiltBundles(certs, newCert))
      ensures !ok ==> steps == old(steps) && db.State() == old(db.State())
      ensures !ok ==> At(owner, caId, Call.RenewCa, GotCerts(ca, certs))
      ensures ok ==> db.locks == old(db.locks) - {caId}
    {
      hide Exec, GenerateCrl;
      var crl := if crlEnabled then Some(GenerateCrl(ca)) else None;
      var r := db.RenewCaWithState(caId, newCert, newPkcs12, crl, RebuiltBundles(certs, newCert), owner);
      ok := r.Ok?;
      if ok {
        Took(Act(owner, Move.CommitRenewCa(newCert, newPkcs12, crlEnabled)));
      }
    }

    // ----- the calls; `openssl` says whether the external command succeeds -----

    method CreateCa(caId: CaId, commonName: string, openssl: bool, made: CaSecrets, crlEnabled: bool) returns (ok: bool)
      requires Valid()
      modifies this, db
      ensures Valid()
      ensures ok <==> openssl && caId !in old(db.cas) && !CaNameExists(old(db.State()), commonName)
      ensures steps == if ok then old(steps) + [Step.CreateCa(caId, commonName, made, crlEnabled)] else old(steps)
      ensures db.certs == old(db.certs) && db.locks == old(db.locks)
      ensures db.cas == if !ok then old(db.cas) else old(db.cas)[caId := CaRow(
        commonName,
        if crlEnabled then made.(index := [], crl := Crl(1, []), crlNumber := Some(2))
        else made.(index := [], crl := NoCrl, crlNumber := Some(1)),
        NoTruststore, false)]
    {
      hide Exec;
      if CaNameExists(db.State(), commonName) || !openssl {
        return false;
      }
      var secrets := made.(index := [], crl := NoCrl, crlNumber := Some(1));
      if crlEnabled {
        var (crl, number) := GenerateCrl(secrets);
        secrets := secrets.(crl := crl, crlNumber := Some(number));
      }
      var r := db.InsertCa(caId, commonName, secrets);
      if r.Err? {
        return false;
      }
      Took(Step.CreateCa(caId, commonName, made, crlEnabled));
      return true;
    }

    lemma RevocableHere(caId: CaId, certId: CertId)
      requires Valid() && GetCert(db.State(), caId, certId).Some?
      ensures RevokeFiles(db.cas[caId].secrets, db.certs[certId].secrets.cert).Some?
              <==> !IsRevoked(db.cas[caId].secrets.index, db.certs[certId].secrets.cert.serial)
    {
      RevocableExactly(steps, db.State(), caId, certId);
    }

    method RevokeCert(caId: CaId, certId: CertId, reason: string, owner: OwnerId, now: int, revokedAt: int,
                      openssl: bool)
      returns (ok: bool)
      requires Valid() && owner !in Sys().workers
      modifies this, db
      ensures Valid() && old(steps) <= steps && OwnSince(steps, |old(steps)|, owner)
      ensures ok ==> At(owner, caId, Revoke(certId, reason), Finished)
      ensures ok <==>
              && openssl && Free(old(db.State()), caId, now)
              && caId in old(db.cas) && !old(db.cas[caId]).deleted
              && certId in old(db.certs) && old(db.certs[certId]).caId == caId && !old(db.certs[certId]).deleted
              && old(db.certs[certId]).revokedAt.None?
              && !IsRevoked(old(db.cas[caId]).secrets.index, old(db.certs[certId]).secrets.cert.serial)
      ensures ok ==> db.certs == old(db.certs)[certId := old(db.certs[certId]).(
                       revokedAt := Some(revokedAt), reason := Some(reason))]
      ensures ok ==> caId in db.cas
                     && var (before, after) := (old(db.cas[caId]).secrets, db.cas[caId].secrets);
                        && db.cas == old(db.cas)[caId := old(db.cas[caId]).(secrets := before.(
                             index := after.index, crl := after.crl, crlNumber := after.crlNumber))]
                        && RevokesEntries(before.index, old(db.certs[certId]).secrets.cert, after.index)
                        && RefreshesCrl(before.crlNumber, after)
      ensures !ok ==> db.cas == old(db.cas) && db.certs == old(db.certs)
      ensures if steps == old(steps) then db.locks == old(db.locks) else LocksLeft(old(db.locks), db.locks, caId, now)
    {
      hide Exec, Apply, Service.At, Service.Valid, RevokeFiles, LocksLeft, RevokesEntries, RefreshesCrl, IsRevoked;
      ghost var call, phase := Revoke(certId, reason), Phase.Locked;
      var seen := GetCert(db.State(), caId, certId);
      if seen.None? || seen.value.revokedAt.Some? {
        return false;
      }
      RevocableHere(caId, certId);
      ok := Acquire(owner, caId, Revoke(certId, reason), now);
      if !ok {
        return;
      }
      ok := CheckUnrevoked(owner, caId, certId, call);
      if ok {
        phase := Unrevoked;
        var ca := ReadCa(owner, caId, call);
        ok := ca.Some?;
        if ok {
          phase := GotCa(ca.value);
          var cert := ReadCert(owner, caId, certId, call, ca.value);
          ok := cert.Some?;
          if ok {
            phase := GotCert(ca.value, cert.value);
            ok := openssl && RevokeFiles(ca.value, cert.value.cert).Some?;
            if ok {
              RevokeFilesDo(ca.value, cert.value.cert);
              ok := CommitRevoke(owner, caId, certId, reason, revokedAt, ca.value, cert.value);
            }
          }
        }
      }
      if !ok {
        Release(owner, call, caId, phase);
      }
    }

    method RenewCert(caId: CaId, certId: CertId, owner: OwnerId, now: int, openssl: bool,
                     subject: string, rest: Blob, csr: Blob, pkcs12: Blob)
      returns (ok: bool)
      requires Valid() && owner !in Sys().workers
      modifies this, db
      ensures Valid() && old(steps) <= steps && OwnSince(steps, |old(steps)|, owner)
      ensures ok ==> At(owner, caId, Renew(certId), Finished)
      ensures ok <==>
              && openssl && Free(old(db.State()), caId, now)
              && caId in old(db.cas) && !old(db.cas[caId]).deleted
              && certId in old(db.certs) && old(db.certs[certId]).caId == caId && !old(db.certs[certId]).deleted
              && old(db.certs[certId]).revokedAt.None?
              && !HasSerial(old(db.cas[caId]).secrets.index, old(db.cas[caId]).secrets.serial)
      ensures ok ==>
                var (ca, held) := (old(db.cas[caId]).secrets, old(db.certs[certId]).secrets);
                var leaf := Leaf(ca.serial, subject, rest);
                && db.certs == old(db.certs)[certId := old(db.certs[certId]).(secrets := held.(
                     cert := leaf, pkcs12 := pkcs12,
                     bundle := Bundle(csr, held.key, pkcs12, leaf, held.password, ca.cert)))]
                && db.cas == old(db.cas)[caId := old(db.cas[caId]).(secrets := ca.(
                     index := ca.index + [Entry(Status.Valid, ca.serial, subject)], serial := ca.serial + 1))]
      ensures !ok ==> db.cas == old(db.cas) && db.certs == old(db.certs)
      ensures if steps == old(steps) then db.locks == old(db.locks) else LocksLeft(old(db.locks), db.locks, caId, now)
    {
      hide Exec, Apply, Service.At, Service.Valid, IssueLeaf, LocksLeft, HasSerial;
      ghost var call, phase := Renew(certId), Phase.Locked;
      var seen := GetCert(db.State(), caId, certId);
      if seen.None? || seen.value.revokedAt.Some? {
        return false;
      }
      ok := Acquire(owner, caId, Renew(certId), now);
      if !ok {
        return;
      }
      var ca := ReadCa(owner, caId, call);
      ok := ca.Some?;
      if ok {
        phase := GotCa(ca.value);
        var cert := ReadCert(owner, caId, certId, call, ca.value);
        ok := cert.Some?;
        if ok {
          phase := GotCert(ca.value, cert.value);
          IssueLeafDoes(ca.value, subject, rest);
          ok := openssl && IssueLeaf(ca.value, subject, rest).Some?;
          if ok {
            ok := CommitRenew(owner, caId, certId, ca.value, cert.value, subject, rest, csr, pkcs12);
          }
        }
      }
      if !ok {
        Release(owner, call, caId, phase);
      }
    }

    method CreateCert(caId: CaId, certId: CertId, commonName: string, owner: OwnerId, now: int, openssl: bool,
                      subject: string, rest: Blob, key: Blob, csr: Blob, pkcs12: Blob, password: Blob)
      returns (ok: bool)
      requires Valid() && owner !in Sys().workers
      modifies this, db
      ensures Valid() && old(steps) <= steps && OwnSince(steps, |old(steps)|, owner)
      ensures ok ==> At(owner, caId, Issue(certId, commonName), Finished)
      ensures ok <==>
              && openssl && Free(old(db.State()), caId, now)
              && caId in old(db.cas) && !old(db.cas[caId]).deleted
              && certId !in old(db.certs) && !CertNameExists(old(db.State()), caId, commonName)
              && !HasSerial(old(db.cas[caId]).secrets.index, old(db.cas[caId]).secrets.serial)
      ensures ok ==>
                var ca := old(db.cas[caId]).secrets;
                var leaf := Leaf(ca.serial, subject, rest);
                && db.certs == old(db.certs)[certId := CertRow(
                     caId, commonName,
                     CertSecrets(leaf, key, csr, pkcs12, password, Bundle(csr, key, pkcs12, leaf, password, ca.cert)),
                     false, None, None)]
                && db.cas == old(db.cas)[caId := old(db.cas[caId]).(secrets := ca.(
                     index := ca.index + [Entry(Status.Valid, ca.serial, subject)], serial := ca.serial + 1))]
      ensures !ok ==> db.cas == old(db.cas) && db.certs == old(db.certs)
      ensures if steps == old(steps) then db.locks == old(db.locks) else LocksLeft(old(db.locks), db.locks, caId, now)
    {
      hide Exec, Apply, Service.At, Service.Valid, IssueLeaf, LocksLeft, HasSerial, CertNameExists;
      ghost var call, phase := Issue(certId, commonName), Phase.Locked;
      if CertNameExists(db.State(), caId, commonName) || !ActiveCa(db.State(), caId) {
        return false;
      }
      ok := Acquire(owner, caId, Issue(certId, commonName), now);
      if !ok {
        return;
      }
      var ca := ReadCa(owner, caId, call);
      ok := ca.Some?;
      if ok {
        phase := GotCa(ca.value);
        IssueLeafDoes(ca.value, subject, rest);
        ok := openssl && IssueLeaf(ca.value, subject, rest).Some?;
        if ok {
          ok := CommitIssue(owner, caId, certId, commonName, ca.value, subject, rest, key, csr, pkcs12, password);
        }
      }
      if !ok {
        Release(owner, call, caId, phase);
      }
    }

    /** Importing signs nothing: the CA's state stays. */
    method ImportCert(caId: CaId, certId: CertId, commonName: string, owner: OwnerId, now: int, openssl: bool,
                      cert: Leaf, key: Blob, csr: Blob, pkcs12: Blob, password: Blob)
      returns (ok: bool)
      requires Valid() && owner !in Sys().workers
      modifies this, db
      ensures Valid() && old(steps) <= steps && OwnSince(steps, |old(steps)|, owner)
      ensures ok ==> At(owner, caId, Import(certId, commonName), Finished)
      ensures ok <==>
              && openssl && Free(old(db.State()), caId, now)
              && caId in old(db.cas) && !old(db.cas[caId]).deleted
              && certId !in old(db.certs) && !CertNameExists(old(db.State()), caId, commonName)
      ensures ok ==> db.certs == old(db.certs)[certId := CertRow(
                       caId, commonName,
                       CertSecrets(cert, key, csr, pkcs12, password,
                                   Bundle(csr, key, pkcs12, cert, password, old(db.cas[caId]).secrets.cert)),
                       false, None, None)]
      ensures db.cas == old(db.cas) && (!ok ==> db.certs == old(db.certs))
      ensures if steps == old(steps) then db.locks == old(db.locks) else LocksLeft(old(db.locks), db.locks, caId, now)
    {
      hide Exec, Apply, Service.At, Service.Valid, LocksLeft, CertNameExists;
      ghost var call, phase := Import(certId, commonName), Phase.Locked;
      if !ActiveCa(db.State(), caId) || certId in db.certs {
        return false;
      }
      ok := Acquire(owner, caId, Import(certId, commonName), now);
      if !ok {
        return;
      }
      var ca := ReadCa(owner, caId, call);
      ok := ca.Some?;
      if ok {
        phase := GotCa(ca.value);
        NamesIgnoreLocks(old(db.State()), db.State(), caId, commonName);
        ok := openssl && !CertNameExists(db.State(), caId, commonName);
        if ok {
          ok := CommitImport(owner, caId, certId, commonName, ca.value, cert, key, csr, pkcs12, password);
        }
      }
      if !ok {
        Release(owner, call, caId, phase);
      }
    }

    method RenewCa(caId: CaId, owner: OwnerId, now: int, openssl: bool, newCert: Blob, newPkcs12: Blob,
                   crlEnabled: bool)
      returns (ok: bool)
      requires Valid() && owner !in Sys().workers
      modifies this, db
      ensures Valid() && old(steps) <= steps && OwnSince(steps, |old(steps)|, owner)
      ensures ok ==> At(owner, caId, Call.RenewCa, Finished)
      ensures ok <==>
              && openssl && Free(old(db.State()), caId, now) && caId in old(db.cas) && !old(db.cas[caId]).deleted
      ensures ok ==> caId in db.cas
                     && var (before, after) := (old(db.cas[caId]).secrets, db.cas[caId].secrets);
                        && db.cas == old(db.cas)[caId := old(db.cas[caId]).(
                             secrets := before.(cert := newCert, pkcs12 := newPkcs12,
                                                crl := after.crl, crlNumber := after.crlNumber),
                             truststore := NoTruststore)]
                        && (if crlEnabled then RefreshesCrl(before.crlNumber, after)
                            else after.crl == before.crl && after.crlNumber == before.crlNumber)
      ensures ok ==> db.certs.Keys == old(db.certs).Keys
                     && forall c :: c in db.certs ==>
                          var row := old(db.certs)[c];
                          var s := row.secrets;
                          db.certs[c] ==
                          if row.caId != caId then row
                          else row.(secrets := s.(bundle := Bundle(s.csr, s.key, s.pkcs12, s.cert, s.password, newCert)))
      ensures !ok ==> db.cas == old(db.cas) && db.certs == old(db.certs)
      ensures if steps == old(steps) then db.locks == old(db.locks) else LocksLeft(old(db.locks), db.locks, caId, now)
    {
      hide Exec, Apply, Service.At, Service.Valid, LocksLeft, RefreshesCrl, GenerateCrl;
      ghost var phase := Phase.Locked;
      if !ActiveCa(db.State(), caId) {
        return false;
      }
      ok := Acquire(owner, caId, Call.RenewCa, now);
      if !ok {
        return;
      }
      var ca := ReadCa(owner, caId, Call.RenewCa);
      ok := ca.Some? && openssl;
      if ca.Some? {
        phase := GotCa(ca.value);
      }
      if ok {
        var certs := ReadCerts(owner, caId, ca.value);
        phase := GotCerts(ca.value, certs);
        GenerateCrlDoes(ca.value, newCert, newPkcs12);
        ok := CommitRenewCa(owner, caId, ca.value, certs, newCert, newPkcs12, crlEnabled);
      }
      if !ok {
        Release(owner, Call.RenewCa, caId, phase);
      }
    }
  }

  // ----- what openssl does to the CA's state -----

  /** A certificate of a reachable state can be revoked exactly when its serial is not revoked yet. */
  lemma RevocableExactly(steps: seq<Step>, t: Tables, caId: CaId, certId: CertId)
    requires Exec(steps).db == t && GetCert(t, caId, certId).Some?
    ensures var (ca, leaf) := (t.cas[caId].secrets, t.certs[certId].secrets.cert);
      RevokeFiles(ca, leaf).Some? <==> !IsRevoked(ca.index, leaf.serial)
  {
    hide Exec;
    ExecKeepsInv(steps);
    var (ca, leaf) := (t.cas[caId].secrets, t.certs[certId].secrets.cert);
    assert DistinctSerials(ca.index);
    var k := FindSerial(ca.index, leaf.serial);
    assert k < |ca.index| && ca.index[k].status == Revoked ==> IsRevoked(ca.index, leaf.serial);
  }

  lemma RevokeFilesDo(ca: CaSecrets, leaf: Leaf)
    requires RevokeFiles(ca, leaf).Some?
    ensures var (index, crl, number) := RevokeFiles(ca, leaf).value;
      && RevokesEntries(ca.index, leaf, index)
      && RefreshesCrl(ca.crlNumber, ca.(index := index, crl := crl, crlNumber := Some(number)))
  {
    hide RevokedSerials, HasSerial;
    var k := FindSerial(ca.index, leaf.serial);
    var revoked := RevokeLeaf(ca.index, leaf).value;
    assert revoked[k].serial == leaf.serial && revoked[k].status == Revoked;
    assert FindRevoked(revoked, leaf.serial) == k;
    SerialIsFound(ca.index, leaf.serial);
  }

  lemma SerialIsFound(index: seq<Entry>, serial: nat)
    ensures HasSerial(index, serial) <==> FindSerial(index, serial) < |index|
  {
  }

  lemma GenerateCrlDoes(ca: CaSecrets, newCert: Blob, newPkcs12: Blob)
    ensures RefreshesCrl(ca.crlNumber, ca.(cert := newCert, pkcs12 := newPkcs12,
                                           crl := GenerateCrl(ca).0, crlNumber := Some(GenerateCrl(ca).1)))
  {
    hide RevokedSerials;
  }

  lemma IssueLeafDoes(ca: CaSecrets, subject: string, rest: Blob)
    ensures IssueLeaf(ca, subject, rest) ==
      if HasSerial(ca.index, ca.serial) then None
      else Some((Leaf(ca.serial, subject, rest), ca.index + [Entry(Status.Valid, ca.serial, subject)], ca.serial + 1))
  {
    SerialIsFound(ca.index, ca.serial);
  }

  lemma NamesIgnoreLocks(a: Tables, b: Tables, caId: CaId, commonName: string)
    requires a.certs == b.certs
    ensures CertNameExists(a, caId, commonName) <==> CertNameExists(b, caId, commonName)
  {
  }
}
