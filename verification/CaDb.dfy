/** The signing tables as the mutable store of src/db.rs; every method is one transaction. */
module CaDb {
  import opened Wrappers
  import opened CaTables

  class Db {
    var cas: map<CaId, CaRow>
    var certs: map<CertId, CertRow>
    var locks: map<CaId, LockRow>

    function State(): Tables
      reads this
    {
      Tables(cas, certs, locks)
    }

    /** A finished transaction: the tables it computed, or, rolled back, the tables it found. */
    ghost predicate Ran(before: Tables, r: Result<Tables, DbError>, outcome: Result<(), DbError>)
      reads this
    {
      match r
      case Ok(t) => outcome == Ok(()) && State() == t
      case Err(e) => outcome == Err(e) && State() == before
    }

    constructor ()
      ensures State() == Tables(map[], map[], map[])
    {
      cas, certs, locks := map[], map[], map[];
    }

    method AcquireCaLock(caId: CaId, owner: OwnerId, now: int, ttl: int) returns (r: Result<(), DbError>)
      modifies this
      ensures Ran(old(State()), CaTables.AcquireCaLock(old(State()), caId, owner, now, ttl), r)
    {
      var live := locks;
      var todo := locks.Keys;
      while todo != {}
        invariant todo <= locks.Keys
        invariant live == map c | c in locks && (c in todo || locks[c].expiresAt >= now) :: locks[c]
        decreases todo
      {
        var c :| c in todo;
        if locks[c].expiresAt < now {
          live := live - {c};
        }
        todo := todo - {c};
      }
      if caId in live {
        return Err(Busy);
      }
      if caId !in cas {
        return Err(NotFound);
      }
      locks := live[caId := LockRow(owner, now + ttl)];
      return Ok(());
    }

    method ReleaseCaLock(caId: CaId, owner: OwnerId)
      modifies this
      ensures State() == CaTables.ReleaseCaLock(old(State()), caId, owner)
    {
      if caId in locks && locks[caId].owner == owner {
        locks := locks - {caId};
      }
    }

    method InsertCa(caId: CaId, commonName: string, secrets: CaSecrets) returns (r: Result<(), DbError>)
      modifies this
      ensures Ran(old(State()), CaTables.InsertCa(old(State()), caId, commonName, secrets), r)
    {
      if caId in cas {
        return Err(AlreadyExists);
      }
      cas := cas[caId := CaRow(commonName, secrets, NoTruststore, false)];
      return Ok(());
    }

    method InsertCertWithState(certId: CertId, caId: CaId, commonName: string, secrets: CertSecrets,
                               caState: Option<(seq<Entry>, nat)>, owner: OwnerId)
      returns (r: Result<(), DbError>)
      modifies this
      ensures Ran(old(State()),
                  CaTables.InsertCertWithState(old(State()), certId, caId, commonName, secrets, caState, owner), r)
    {
      if !HoldsLock(State(), caId, owner) {
        return Err(LostLock);
      }
      if !ActiveCa(State(), caId) {
        return Err(NotFound);
      }
      if certId in certs {
        return Err(AlreadyExists);
      }
      var ca := cas[caId];
      if caState.Some? {
        ca := ca.(secrets := ca.secrets.(index := caState.value.0, serial := caState.value.1));
      }
      cas := cas[caId := ca];
      certs := certs[certId := CertRow(caId, commonName, secrets, false, None, None)];
      locks := locks - {caId};
      return Ok(());
    }

    method UpdateCertWithState(caId: CaId, certId: CertId, cert: Leaf, pkcs12: Blob, bundle: Bundle,
                               caState: (seq<Entry>, nat), owner: OwnerId)
      returns (r: Result<(), DbError>)
      modifies this
      ensures Ran(old(State()),
                  CaTables.UpdateCertWithState(old(State()), caId, certId, cert, pkcs12, bundle, caState, owner), r)
    {
      if !HoldsLock(State(), caId, owner) {
        return Err(LostLock);
      }
      if certId !in certs || certs[certId].caId != caId || certs[certId].deleted || certs[certId].revokedAt.Some? {
        return Err(NotFound);
      }
      if !ActiveCa(State(), caId) {
        return Err(NotFound);
      }
      var row := certs[certId];
      certs := certs[certId := row.(secrets := row.secrets.(cert := cert, pkcs12 := pkcs12, bundle := bundle))];
      var ca := cas[caId];
      cas := cas[caId := ca.(secrets := ca.secrets.(index := caState.0, serial := caState.1))];
      locks := locks - {caId};
      return Ok(());
    }

    method RevokeCertWithState(caId: CaId, certId: CertId, reason: string, revokedAt: int,
                               caState: (seq<Entry>, nat), crl: (Crl, nat), owner: OwnerId)
      returns (r: Result<(), DbError>)
      modifies this
      ensures Ran(old(State()),
                  CaTables.RevokeCertWithState(old(State()), caId, certId, reason, revokedAt, caState, crl, owner), r)
    {
      if !HoldsLock(State(), caId, owner) {
        return Err(LostLock);
      }
      if certId !in certs || certs[certId].caId != caId || certs[certId].deleted {
        return Err(NotFound);
      }
      if !ActiveCa(State(), caId) {
        return Err(NotFound);
      }
      certs := certs[certId := certs[certId].(revokedAt := Some(revokedAt), reason := Some(reason))];
      var secrets := cas[caId].secrets.(index := caState.0, serial := caState.1, crl := crl.0, crlNumber := Some(crl.1));
      cas := cas[caId := cas[caId].(secrets := secrets)];
      locks := locks - {caId};
      return Ok(());
    }

    method RenewCaWithState(caId: CaId, cert: Blob, pkcs12: Blob, crl: Option<(Crl, nat)>,
                            bundles: map<CertId, Bundle>, owner: OwnerId)
      returns (r: Result<(), DbError>)
      modifies this
      ensures Ran(old(State()), CaTables.RenewCaWithState(old(State()), caId, cert, pkcs12, crl, bundles, owner), r)
    {
      if !HoldsLock(State(), caId, owner) {
        return Err(LostLock);
      }
      if !ActiveCa(State(), caId) {
        return Err(NotFound);
      }
      var secrets := cas[caId].secrets.(cert := cert, pkcs12 := pkcs12);
      if crl.Some? {
        secrets := secrets.(crl := crl.value.0, crlNumber := Some(crl.value.1));
      }
      cas := cas[caId := cas[caId].(secrets := secrets, truststore := NoTruststore)];
      ghost var before := certs;
      var todo := bundles.Keys;
      NoBundles(before, caId, bundles);
      hide WithBundles;
      while todo != {}
        invariant todo <= bundles.Keys
        invariant cas == old(cas)[caId := old(cas[caId]).(secrets := secrets, truststore := NoTruststore)]
        invariant locks == old(locks)
        invariant certs == WithBundles(before, caId, bundles - todo)
        decreases todo
      {
        var c :| c in todo;
        OneMoreBundle(before, caId, bundles, todo, c);
        if c in certs && certs[c].caId == caId {
          certs := certs[c := certs[c].(secrets := certs[c].secrets.(bundle := bundles[c]))];
        }
        todo := todo - {c};
      }
      assert bundles - {} == bundles;
      locks := locks - {caId};
      return Ok(());
    }

    method SetCaTruststore(caId: CaId, cert: Blob, truststore: Truststore) returns (stored: bool)
      modifies this
      ensures State() == CaTables.SetCaTruststore(old(State()), caId, cert, truststore)
      ensures stored <==> caId in old(cas) && !old(cas[caId]).deleted && old(cas[caId]).secrets.cert == cert
      ensures cas == if stored then old(cas)[caId := old(cas[caId]).(truststore := truststore)] else old(cas)
      ensures certs == old(certs) && locks == old(locks)
    {
      stored := ActiveCa(State(), caId) && cas[caId].secrets.cert == cert;
      if stored {
        cas := cas[caId := cas[caId].(truststore := truststore)];
      }
    }

    method DeleteCa(caId: CaId) returns (r: Result<(), DbError>)
      modifies this
      ensures Ran(old(State()), CaTables.DeleteCa(old(State()), caId), r)
      ensures r.Ok? <==> caId in old(cas) && !old(cas[caId]).deleted
      ensures cas == if r.Ok? then old(cas)[caId := old(cas[caId]).(deleted := true)] else old(cas)
      ensures certs == old(certs) && locks == old(locks)
    {
      if !ActiveCa(State(), caId) {
        return Err(NotFound);
      }
      cas := cas[caId := cas[caId].(deleted := true)];
      return Ok(());
    }

    method RestoreCa(caId: CaId) returns (r: Result<(), DbError>)
      modifies this
      ensures Ran(old(State()), CaTables.RestoreCa(old(State()), caId), r)
      ensures r.Ok? <==> caId in old(cas) && old(cas[caId]).deleted
                         && !CaNameTaken(old(State()), old(cas[caId]).commonName)
      ensures cas == if r.Ok? then old(cas)[caId := old(cas[caId]).(deleted := false)] else old(cas)
      ensures certs == old(certs) && locks == old(locks)
    {
      if caId !in cas || !cas[caId].deleted {
        return Err(NotFound);
      }
      if CaNameTaken(State(), cas[caId].commonName) {
        return Err(NameTaken);
      }
      cas := cas[caId := cas[caId].(deleted := false)];
      return Ok(());
    }

    method DeleteCert(caId: CaId, certId: CertId) returns (r: Result<(), DbError>)
      modifies this
      ensures Ran(old(State()), CaTables.DeleteCert(old(State()), caId, certId), r)
      ensures r.Ok? <==> certId in old(certs) && old(certs[certId]).caId == caId && !old(certs[certId]).deleted
      ensures certs == if r.Ok? then old(certs)[certId := old(certs[certId]).(deleted := true)] else old(certs)
      ensures cas == old(cas) && locks == old(locks)
    {
      if certId !in certs || certs[certId].caId != caId || certs[certId].deleted {
        return Err(NotFound);
      }
      certs := certs[certId := certs[certId].(deleted := true)];
      return Ok(());
    }

    method RestoreCert(caId: CaId, certId: CertId) returns (r: Result<(), DbError>)
      modifies this
      ensures Ran(old(State()), CaTables.RestoreCert(old(State()), caId, certId), r)
      ensures r.Ok? <==> certId in old(certs) && old(certs[certId]).caId == caId && old(certs[certId]).deleted
                         && caId in old(cas) && !old(cas[caId]).deleted
                         && !CertNameTaken(old(State()), caId, old(certs[certId]).commonName)
      ensures certs == if r.Ok? then old(certs)[certId := old(certs[certId]).(deleted := false)] else old(certs)
      ensures cas == old(cas) && locks == old(locks)
    {
      if certId !in certs || certs[certId].caId != caId || !certs[certId].deleted {
        return Err(NotFound);
      }
      if !ActiveCa(State(), caId) {
        return Err(CaIsDeleted);
      }
      if CertNameTaken(State(), caId, certs[certId].commonName) {
        return Err(NameTaken);
      }
      certs := certs[certId := certs[certId].(deleted := false)];
      return Ok(());
    }

    method NukeAll()
      modifies this
      ensures State() == CaTables.NukeAll(old(State())) && cas == map[] && certs == map[] && locks == map[]
    {
      locks := map[];
      certs := map[];
      cas := map[];
    }
  }

  lemma NoBundles(certs: map<CertId, CertRow>, caId: CaId, bundles: map<CertId, Bundle>)
    ensures WithBundles(certs, caId, bundles - bundles.Keys) == certs
  {
  }

  /** What writing one more bundle does to the certificate table. */
  lemma OneMoreBundle(certs: map<CertId, CertRow>, caId: CaId, bundles: map<CertId, Bundle>, todo: set<CertId>,
                      c: CertId)
    requires c in todo && todo <= bundles.Keys
    ensures var now := WithBundles(certs, caId, bundles - todo);
      WithBundles(certs, caId, bundles - (todo - {c})) ==
      if c in now && now[c].caId == caId
      then now[c := now[c].(secrets := now[c].secrets.(bundle := bundles[c]))] else now
  {
  }
}
