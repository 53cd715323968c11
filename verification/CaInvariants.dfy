/** What every step of the signing protocol keeps, and the proof that it does. */
module CaInvariants {
  import opened Wrappers
  import opened CaTables
  import opened CaProtocol

  // ----- the index -----

  /** Nothing recorded in the index is lost, and what was revoked stays revoked. */
  ghost predicate Grows(before: seq<Entry>, after: seq<Entry>) {
    && (forall serial: nat, subject: string ::
          HasEntry(before, serial, subject) ==> HasEntry(after, serial, subject))
    && (forall serial: nat :: IsRevoked(before, serial) ==> IsRevoked(after, serial))
  }

  lemma GrowsPointwise(before: seq<Entry>, after: seq<Entry>)
    requires |before| <= |after|
    requires forall i :: 0 <= i < |before| ==>
      && after[i].serial == before[i].serial && after[i].subject == before[i].subject
      && (before[i].status == Revoked ==> after[i].status == Revoked)
    ensures Grows(before, after)
  {
    forall serial: nat, subject: string | HasEntry(before, serial, subject)
      ensures HasEntry(after, serial, subject)
    {
      var i :| 0 <= i < |before| && before[i].serial == serial && before[i].subject == subject;
      assert after[i].serial == serial;
    }
    forall serial: nat | IsRevoked(before, serial) ensures IsRevoked(after, serial) {
      var i :| 0 <= i < |before| && before[i].serial == serial && before[i].status == Revoked;
      assert after[i].serial == serial;
    }
  }

  /** Issuing records a new `V` entry, under a serial the index never had, and leaves the CRL's content alone. */
  lemma IssueLeafKeepsIndex(ca: CaSecrets, subject: string, rest: Blob)
    requires DistinctSerials(ca.index) && IssueLeaf(ca, subject, rest).Some?
    ensures var (leaf, index, serial) := IssueLeaf(ca, subject, rest).value;
      && !HasSerial(ca.index, leaf.serial) && HasEntry(index, leaf.serial, subject)
      && leaf.subject == subject && serial == leaf.serial + 1
      && DistinctSerials(index) && Grows(ca.index, index)
      && RevokedSerials(index) == RevokedSerials(ca.index)
  {
    var (leaf, index, _) := IssueLeaf(ca, subject, rest).value;
    assert index[|ca.index|] == Entry(Valid, leaf.serial, subject);
    assert index[..|index| - 1] == ca.index;
    GrowsPointwise(ca.index, index);
  }

  lemma RevokeLeafKeepsIndex(index: seq<Entry>, cert: Leaf)
    requires DistinctSerials(index) && RevokeLeaf(index, cert).Some?
    ensures var after := RevokeLeaf(index, cert).value;
      && DistinctSerials(after) && Grows(index, after) && IsRevoked(after, cert.serial)
      && (!HasSerial(index, cert.serial) || HasEntry(index, cert.serial, cert.subject) ==>
            HasEntry(after, cert.serial, cert.subject))
  {
    var after := RevokeLeaf(index, cert).value;
    var k := FindSerial(index, cert.serial);
    assert after[k].serial == cert.serial && after[k].status == Revoked;
    GrowsPointwise(index, after);
  }

  lemma RevokeSupersededKeepsIndex(index: seq<Entry>, cert: Leaf)
    requires DistinctSerials(index) && IsRevoked(index, cert.serial)
    ensures var after := RevokeSuperseded(index, cert.serial);
      && DistinctSerials(after) && Grows(index, after)
      && (HasEntry(index, cert.serial, cert.subject) ==>
            forall serial: nat :: HasEntry(index, serial, cert.subject) ==> IsRevoked(after, serial))
  {
    var after := RevokeSuperseded(index, cert.serial);
    var k := FindRevoked(index, cert.serial);
    assert k < |index|;
    GrowsPointwise(index, after);
    forall serial: nat |
      HasEntry(index, cert.serial, cert.subject) && HasEntry(index, serial, cert.subject)
      ensures IsRevoked(after, serial)
    {
      var j :| 0 <= j < |index| && index[j].serial == cert.serial && index[j].subject == cert.subject;
      assert j == k;
      var i :| 0 <= i < |index| && index[i].serial == serial && index[i].subject == cert.subject;
      assert after[i].serial == serial && after[i].status == Revoked;
    }
  }

  /**
   Revoking a certificate revokes its serial and every serial recorded under the same subject, and the new
   CRL lists exactly the revoked serials.
   */
  lemma RevokeFilesKeepsIndex(ca: CaSecrets, cert: Leaf)
    requires DistinctSerials(ca.index) && RevokeFiles(ca, cert).Some?
    ensures var (index, crl, number) := RevokeFiles(ca, cert).value;
      && DistinctSerials(index) && Grows(ca.index, index) && IsRevoked(index, cert.serial)
      && crl == Crl(NextCrlNumber(ca), RevokedSerials(index)) && number == NextCrlNumber(ca) + 1
      && (!HasSerial(ca.index, cert.serial) || HasEntry(ca.index, cert.serial, cert.subject) ==>
            forall serial: nat :: HasEntry(ca.index, serial, cert.subject) ==> IsRevoked(index, serial))
  {
    var revoked := RevokeLeaf(ca.index, cert).value;
    RevokeLeafKeepsIndex(ca.index, cert);
    RevokeSupersededKeepsIndex(revoked, cert);
  }

  // ----- rows -----

  ghost predicate Increasing(numbers: seq<nat>) {
    forall i, j :: 0 <= i < j < |numbers| ==> numbers[i] < numbers[j]
  }

  ghost predicate NoDuplicates(numbers: seq<nat>) {
    forall i, j :: 0 <= i < j < |numbers| ==> numbers[i] != numbers[j]
  }

  ghost predicate CrlOk(ca: CaSecrets, published: seq<nat>) {
    && Increasing(published)
    && (published != [] ==> published[|published| - 1] < NextCrlNumber(ca) && ca.crlNumber.Some?)
    && match ca.crl
       case NoCrl => published == []
       case Crl(number, serials) =>
         published != [] && number == published[|published| - 1] && serials == RevokedSerials(ca.index)
  }

  ghost predicate CaOk(row: CaRow, issued: seq<nat>, published: seq<nat>) {
    && DistinctSerials(row.secrets.index)
    && CrlOk(row.secrets, published)
    && (row.truststore == NoTruststore || row.truststore == Truststore(row.secrets.cert))
    && NoDuplicates(issued)
    && (forall i :: 0 <= i < |issued| ==> HasSerial(row.secrets.index, issued[i]))
  }

  /** The bundle embeds the CA's certificate and the row's own files; the signing request may differ. */
  ghost predicate BundleOk(secrets: CertSecrets, caCert: Blob) {
    && secrets.bundle.caCert == caCert && secrets.bundle.cert == secrets.cert && secrets.bundle.key == secrets.key
    && secrets.bundle.pkcs12 == secrets.pkcs12 && secrets.bundle.password == secrets.password
  }

  ghost predicate RevocationOk(row: CertRow, index: seq<Entry>, issuances: seq<Issuance>) {
    row.revokedAt.Some? ==>
      && IsRevoked(index, row.secrets.cert.serial)
      && forall i :: 0 <= i < |issuances| && issuances[i].subject == row.secrets.cert.subject ==>
           IsRevoked(index, issuances[i].serial)
  }

  ghost predicate IssuancesOk(index: seq<Entry>, issuances: seq<Issuance>, issued: seq<nat>) {
    forall i :: 0 <= i < |issuances| ==>
      && issuances[i].serial in issued
      && HasEntry(index, issuances[i].serial, issuances[i].subject)
  }

  ghost predicate CertOk(row: CertRow, ca: CaRow, issuances: seq<Issuance>, issued: seq<nat>) {
    && BundleOk(row.secrets, ca.secrets.cert)
    && IssuancesOk(ca.secrets.index, issuances, issued)
    && (issuances != [] ==>
          issuances[|issuances| - 1] == Issuance(row.secrets.cert.serial, row.secrets.cert.subject))
    && RevocationOk(row, ca.secrets.index, issuances)
  }

  ghost predicate RowsOk(cas: map<CaId, CaRow>, certs: map<CertId, CertRow>, h: History) {
    && h.issued.Keys <= cas.Keys && h.published.Keys <= cas.Keys && h.rows.Keys <= certs.Keys
    && (forall c :: c in cas ==> CaOk(cas[c], h.Issued(c), h.Published(c)))
    && (forall c :: c in certs ==>
          && certs[c].caId in cas
          && CertOk(certs[c], cas[certs[c].caId], h.Row(c), h.Issued(certs[c].caId)))
  }

  // ----- locks -----

  /** A lock row belongs to the one worker that acquired it. */
  ghost predicate LocksOk(s: Sys) {
    && s.db.locks.Keys <= s.db.cas.Keys
    && forall c :: c in s.db.locks ==>
         s.db.locks[c].owner in s.workers && s.workers[s.db.locks[c].owner].caId == c
  }

  /** What a worker that still holds its lock has read is what the tables hold. */
  ghost predicate ReadsCurrent(w: Worker, t: Tables)
    requires w.caId in t.cas
  {
    && (w.phase.GotCa? || w.phase.GotCert? || w.phase.GotCerts? ==> w.phase.ca == t.cas[w.caId].secrets)
    && (w.call.Revoke? && !w.phase.Locked? && !w.phase.Finished? ==>
          w.call.certId in t.certs && t.certs[w.call.certId].caId == w.caId
          && t.certs[w.call.certId].revokedAt.None?)
    && (w.phase.GotCert? ==>
          (w.call.Renew? || w.call.Revoke?) && w.call.certId in t.certs && t.certs[w.call.certId].caId == w.caId
          && w.phase.cert == t.certs[w.call.certId].secrets)
    && (w.phase.GotCerts? ==> w.phase.certs == ListCertSecrets(t, w.caId))
  }

  ghost predicate HoldersOk(s: Sys) {
    forall o :: o in s.workers && HoldsLock(s.db, s.workers[o].caId, o) ==>
      s.workers[o].caId in s.db.cas && ReadsCurrent(s.workers[o], s.db)
  }

  ghost predicate Inv(s: Sys) {
    && RowsOk(s.db.cas, s.db.certs, s.history)
    && LocksOk(s)
    && HoldersOk(s)
    && (forall b :: b in s.backups ==> RowsOk(b.cas, b.certs, b.history))
  }

  // ----- preservation, row level -----

  /** A certificate row survives any change of its CA's state that keeps the CA certificate. */
  lemma CertOkGrows(row: CertRow, before: CaRow, after: CaRow, issuances: seq<Issuance>, issued: seq<nat>,
                    issued': seq<nat>)
    requires CertOk(row, before, issuances, issued)
    requires after.secrets.cert == before.secrets.cert && Grows(before.secrets.index, after.secrets.index)
    requires forall n :: n in issued ==> n in issued'
    ensures CertOk(row, after, issuances, issued')
  {
  }

  /** One CA row is replaced and the CA's history extended; certificate rows stay. */
  lemma RowsOkWithCa(cas: map<CaId, CaRow>, certs: map<CertId, CertRow>, h: History, ca: CaId, row: CaRow, h': History)
    requires RowsOk(cas, certs, h) && ca in cas
    requires h' == h.(issued := h'.issued, published := h'.published)
    requires h'.issued.Keys <= h.issued.Keys + {ca} && h'.published.Keys <= h.published.Keys + {ca}
    requires forall c :: c != ca ==> h'.Issued(c) == h.Issued(c) && h'.Published(c) == h.Published(c)
    requires CaOk(row, h'.Issued(ca), h'.Published(ca))
    requires row.secrets.cert == cas[ca].secrets.cert && Grows(cas[ca].secrets.index, row.secrets.index)
    requires forall n :: n in h.Issued(ca) ==> n in h'.Issued(ca)
    ensures RowsOk(cas[ca := row], certs, h')
  {
    hide CaOk, CertOk, Grows;
    var cas' := cas[ca := row];
    forall c | c in certs
      ensures CertOk(certs[c], cas'[certs[c].caId], h'.Row(c), h'.Issued(certs[c].caId))
    {
      assert h'.Row(c) == h.Row(c);
      if certs[c].caId == ca {
        CertOkGrows(certs[c], cas[ca], row, h.Row(c), h.Issued(ca), h'.Issued(ca));
      }
    }
  }

  /** One certificate row is added or replaced. */
  lemma RowsOkWithCert(cas: map<CaId, CaRow>, certs: map<CertId, CertRow>, h: History, cert: CertId, row: CertRow,
                       h': History)
    requires RowsOk(cas, certs, h)
    requires h' == h.(rows := h'.rows) && h'.rows.Keys <= h.rows.Keys + {cert}
    requires forall c :: c != cert ==> h'.Row(c) == h.Row(c)
    requires row.caId in cas && CertOk(row, cas[row.caId], h'.Row(cert), h.Issued(row.caId))
    ensures RowsOk(cas, certs[cert := row], h')
  {
    hide CaOk, CertOk;
    assert forall c :: h'.Issued(c) == h.Issued(c) && h'.Published(c) == h.Published(c);
  }

  lemma IssuanceKeepsCa(ca: CaRow, issued: seq<nat>, published: seq<nat>, subject: string, rest: Blob)
    requires CaOk(ca, issued, published) && IssueLeaf(ca.secrets, subject, rest).Some?
    ensures var (leaf, index, serial) := IssueLeaf(ca.secrets, subject, rest).value;
      CaOk(ca.(secrets := ca.secrets.(index := index, serial := serial)), issued + [leaf.serial], published)
  {
    var (leaf, index, serial) := IssueLeaf(ca.secrets, subject, rest).value;
    IssueLeafKeepsIndex(ca.secrets, subject, rest);
    forall i | 0 <= i < |issued + [leaf.serial]| ensures HasSerial(index, (issued + [leaf.serial])[i]) {
      if i < |issued| {
        var j :| 0 <= j < |ca.secrets.index| && ca.secrets.index[j].serial == issued[i];
        assert index[j].serial == issued[i];
      } else {
        assert index[|ca.secrets.index|].serial == leaf.serial;
      }
    }
  }

  lemma IssuedCertOk(row: CertRow, ca: CaRow, issuances: seq<Issuance>, issued: seq<nat>)
    requires BundleOk(row.secrets, ca.secrets.cert) && row.revokedAt.None?
    requires IssuancesOk(ca.secrets.index, issuances, issued)
    requires HasEntry(ca.secrets.index, row.secrets.cert.serial, row.secrets.cert.subject)
    ensures CertOk(row, ca, issuances + [Issuance(row.secrets.cert.serial, row.secrets.cert.subject)],
                   issued + [row.secrets.cert.serial])
  {
    var issuances' := issuances + [Issuance(row.secrets.cert.serial, row.secrets.cert.subject)];
    var issued' := issued + [row.secrets.cert.serial];
    assert issued'[|issued|] == row.secrets.cert.serial;
    forall i | 0 <= i < |issuances'|
      ensures issuances'[i].serial in issued' && HasEntry(ca.secrets.index, issuances'[i].serial, issuances'[i].subject)
    {
      if i < |issuances| {
        assert issuances[i].serial in issued;
      }
    }
  }

  lemma CaOkIndex(ca: CaRow, issued: seq<nat>, published: seq<nat>)
    requires CaOk(ca, issued, published)
    ensures DistinctSerials(ca.secrets.index)
  {
  }

  lemma CertOkIssuances(row: CertRow, ca: CaRow, issuances: seq<Issuance>, issued: seq<nat>)
    requires CertOk(row, ca, issuances, issued)
    ensures IssuancesOk(ca.secrets.index, issuances, issued)
  {
  }

  /** The committed row of an issue or a renewal, together with the CA's new state. */
  lemma IssuanceKeepsRows(cas: map<CaId, CaRow>, certs: map<CertId, CertRow>, h: History,
                          caId: CaId, cert: CertId, subject: string, rest: Blob, row: CertRow)
    requires RowsOk(cas, certs, h) && caId in cas && IssueLeaf(cas[caId].secrets, subject, rest).Some?
    requires row.caId == caId && row.revokedAt.None? && BundleOk(row.secrets, cas[caId].secrets.cert)
    requires row.secrets.cert == IssueLeaf(cas[caId].secrets, subject, rest).value.0
    requires cert in certs ==> certs[cert].caId == caId
    ensures var (leaf, index, serial) := IssueLeaf(cas[caId].secrets, subject, rest).value;
      RowsOk(cas[caId := cas[caId].(secrets := cas[caId].secrets.(index := index, serial := serial))],
             certs[cert := row], h.AddIssuance(caId, cert, leaf))
  {
    hide CaOk, CertOk, Grows, BundleOk, IssuancesOk;
    var ca := cas[caId];
    var (leaf, index, serial) := IssueLeaf(ca.secrets, subject, rest).value;
    var ca' := ca.(secrets := ca.secrets.(index := index, serial := serial));
    var h1 := h.(issued := h.issued[caId := h.Issued(caId) + [leaf.serial]]);
    assert Grows(ca.secrets.index, index) && HasEntry(index, leaf.serial, leaf.subject) by {
      CaOkIndex(ca, h.Issued(caId), h.Published(caId));
      IssueLeafKeepsIndex(ca.secrets, subject, rest);
    }
    IssuanceKeepsCa(ca, h.Issued(caId), h.Published(caId), subject, rest);
    RowsOkWithCa(cas, certs, h, caId, ca', h1);
    assert CertOk(row, ca', h.Row(cert) + [Issuance(leaf.serial, leaf.subject)], h1.Issued(caId)) by {
      if cert in certs {
        CertOkGrows(certs[cert], ca, ca', h.Row(cert), h.Issued(caId), h.Issued(caId));
        CertOkIssuances(certs[cert], ca', h.Row(cert), h.Issued(caId));
      }
      IssuedCertOk(row, ca', h.Row(cert), h.Issued(caId));
    }
    RowsOkWithCert(cas[caId := ca'], certs, h1, cert, row, h.AddIssuance(caId, cert, leaf));
  }

  lemma PublishKeepsCrl(ca: CaSecrets, published: seq<nat>, after: CaSecrets)
    requires CrlOk(ca, published)
    requires after.crl == Crl(NextCrlNumber(ca), RevokedSerials(after.index))
    requires after.crlNumber == Some(NextCrlNumber(ca) + 1)
    ensures CrlOk(after, published + [NextCrlNumber(ca)])
  {
  }

  function AfterRevocation(ca: CaRow, refresh: (seq<Entry>, Crl, nat)): CaRow {
    ca.(secrets := ca.secrets.(index := refresh.0, serial := ca.secrets.serial, crl := refresh.1,
                               crlNumber := Some(refresh.2)))
  }

  lemma RevocationKeepsCa(ca: CaRow, issued: seq<nat>, published: seq<nat>, leaf: Leaf)
    requires CaOk(ca, issued, published) && RevokeFiles(ca.secrets, leaf).Some?
    ensures CaOk(AfterRevocation(ca, RevokeFiles(ca.secrets, leaf).value), issued,
                 published + [NextCrlNumber(ca.secrets)])
  {
    var refresh := RevokeFiles(ca.secrets, leaf).value;
    RevokeFilesKeepsIndex(ca.secrets, leaf);
    PublishKeepsCrl(ca.secrets, published, AfterRevocation(ca, refresh).secrets);
    forall i | 0 <= i < |issued| ensures HasSerial(refresh.0, issued[i]) {
      var j :| 0 <= j < |ca.secrets.index| && ca.secrets.index[j].serial == issued[i];
      assert HasEntry(ca.secrets.index, issued[i], ca.secrets.index[j].subject);
      assert HasEntry(refresh.0, issued[i], ca.secrets.index[j].subject);
    }
  }

  lemma RevokedCertOk(row: CertRow, ca: CaRow, issuances: seq<Issuance>, issued: seq<nat>, reason: string,
                      revokedAt: int)
    requires CertOk(row, ca, issuances, issued) && DistinctSerials(ca.secrets.index)
    requires RevokeFiles(ca.secrets, row.secrets.cert).Some?
    ensures CertOk(row.(revokedAt := Some(revokedAt), reason := Some(reason)),
                   AfterRevocation(ca, RevokeFiles(ca.secrets, row.secrets.cert).value), issuances, issued)
  {
    var leaf := row.secrets.cert;
    var refresh := RevokeFiles(ca.secrets, leaf).value;
    RevokeFilesKeepsIndex(ca.secrets, leaf);
    CertOkGrows(row.(revokedAt := None), ca, AfterRevocation(ca, refresh), issuances, issued, issued);
    forall i | 0 <= i < |issuances| && issuances[i].subject == leaf.subject
      ensures IsRevoked(refresh.0, issuances[i].serial)
    {
      assert issuances[|issuances| - 1] == Issuance(leaf.serial, leaf.subject);
      assert HasEntry(ca.secrets.index, issuances[i].serial, leaf.subject);
    }
  }

  lemma RowsAt(cas: map<CaId, CaRow>, certs: map<CertId, CertRow>, h: History, ca: CaId, cert: CertId)
    requires RowsOk(cas, certs, h) && ca in cas && cert in certs && certs[cert].caId == ca
    ensures CaOk(cas[ca], h.Issued(ca), h.Published(ca)) && CertOk(certs[cert], cas[ca], h.Row(cert), h.Issued(ca))
    ensures h.published.Keys <= cas.Keys && h.issued.Keys <= cas.Keys && h.rows.Keys <= certs.Keys
  {
    hide CaOk, CertOk;
  }

  lemma RevocationKeepsRows(cas: map<CaId, CaRow>, certs: map<CertId, CertRow>, h: History,
                            caId: CaId, cert: CertId, reason: string, revokedAt: int)
    requires RowsOk(cas, certs, h) && caId in cas && cert in certs && certs[cert].caId == caId
    requires RevokeFiles(cas[caId].secrets, certs[cert].secrets.cert).Some?
    ensures RowsOk(cas[caId := AfterRevocation(cas[caId], RevokeFiles(cas[caId].secrets, certs[cert].secrets.cert).value)],
                   certs[cert := certs[cert].(revokedAt := Some(revokedAt), reason := Some(reason))],
                   h.AddCrl(caId, NextCrlNumber(cas[caId].secrets)))
  {
    hide CaOk, CertOk, Grows, RevokeFiles, RowsOk;
    var ca := cas[caId];
    var leaf := certs[cert].secrets.cert;
    RowsAt(cas, certs, h, caId, cert);
    var refresh := RevokeFiles(ca.secrets, leaf).value;
    var h' := h.AddCrl(caId, NextCrlNumber(ca.secrets));
    CaOkIndex(ca, h.Issued(caId), h.Published(caId));
    assert Grows(ca.secrets.index, refresh.0) by {
      RevokeFilesKeepsIndex(ca.secrets, leaf);
    }
    RevocationKeepsCa(ca, h.Issued(caId), h.Published(caId), leaf);
    RowsOkWithCa(cas, certs, h, caId, AfterRevocation(ca, refresh), h');
    RevokedCertOk(certs[cert], ca, h.Row(cert), h.Issued(caId), reason, revokedAt);
    RowsOkWithCert(cas[caId := AfterRevocation(ca, refresh)], certs, h', cert,
                   certs[cert].(revokedAt := Some(revokedAt), reason := Some(reason)), h');
  }

  lemma RebundledCertOk(row: CertRow, before: CaRow, after: CaRow, issuances: seq<Issuance>, issued: seq<nat>)
    requires CertOk(row, before, issuances, issued) && after.secrets.index == before.secrets.index
    ensures CertOk(row.(secrets := row.secrets.(bundle := BuildBundle(row.secrets, after.secrets.cert))),
                   after, issuances, issued)
  {
  }

  lemma RenewedCaOk(ca: CaRow, issued: seq<nat>, published: seq<nat>, secrets: CaSecrets, published': seq<nat>)
    requires CaOk(ca, issued, published)
    requires secrets.index == ca.secrets.index && CrlOk(secrets, published')
    ensures CaOk(ca.(secrets := secrets, truststore := NoTruststore), issued, published')
  {
  }

  lemma CaRenewalKeepsRows(cas: map<CaId, CaRow>, certs: map<CertId, CertRow>, h: History, caId: CaId,
                           secrets: CaSecrets, bundles: map<CertId, Bundle>, h': History)
    requires RowsOk(cas, certs, h) && caId in cas
    requires forall c :: c in certs && certs[c].caId == caId ==>
      c in bundles && bundles[c] == BuildBundle(certs[c].secrets, secrets.cert)
    requires h' == h.(published := h'.published)
    requires h'.published.Keys <= h.published.Keys + {caId}
    requires forall c :: c != caId ==> h'.Published(c) == h.Published(c)
    requires secrets.index == cas[caId].secrets.index && CrlOk(secrets, h'.Published(caId))
    ensures RowsOk(cas[caId := cas[caId].(secrets := secrets, truststore := NoTruststore)],
                   WithBundles(certs, caId, bundles), h')
  {
    hide CaOk, CertOk, CrlOk;
    var row := cas[caId].(secrets := secrets, truststore := NoTruststore);
    var cas' := cas[caId := row];
    var certs' := WithBundles(certs, caId, bundles);
    RenewedCaOk(cas[caId], h.Issued(caId), h.Published(caId), secrets, h'.Published(caId));
    forall c | c in certs'
      ensures certs'[c].caId in cas' && CertOk(certs'[c], cas'[certs'[c].caId], h'.Row(c), h'.Issued(certs'[c].caId))
    {
      if certs[c].caId == caId {
        RebundledCertOk(certs[c], cas[caId], row, h.Row(c), h.Issued(caId));
      }
    }
  }

  // ----- preservation, by step -----

  /** Soft deletes, restores and truststore writes touch nothing the invariants speak of. */
  ghost predicate Quiet(before: Tables, after: Tables) {
    && after.cas.Keys == before.cas.Keys && after.certs.Keys == before.certs.Keys
    && (forall c :: c in before.cas ==>
          && after.cas[c].secrets == before.cas[c].secrets
          && (after.cas[c].truststore == before.cas[c].truststore || after.cas[c].truststore == NoTruststore
              || after.cas[c].truststore == Truststore(before.cas[c].secrets.cert)))
    && (forall c :: c in before.certs ==>
          && after.certs[c].caId == before.certs[c].caId && after.certs[c].secrets == before.certs[c].secrets
          && after.certs[c].revokedAt == before.certs[c].revokedAt)
  }

  lemma QuietKeepsRows(before: Tables, after: Tables, h: History)
    requires RowsOk(before.cas, before.certs, h) && Quiet(before, after)
    ensures RowsOk(after.cas, after.certs, h)
  {
    hide CaOk, CertOk;
    forall c | c in after.cas ensures CaOk(after.cas[c], h.Issued(c), h.Published(c)) {
      QuietCaOk(before.cas[c], after.cas[c], h.Issued(c), h.Published(c));
    }
    forall c | c in after.certs
      ensures CertOk(after.certs[c], after.cas[after.certs[c].caId], h.Row(c), h.Issued(after.certs[c].caId))
    {
      var ca := before.certs[c].caId;
      QuietCertOk(before.certs[c], after.certs[c], before.cas[ca], after.cas[ca], h.Row(c), h.Issued(ca));
    }
  }

  lemma QuietCaOk(before: CaRow, after: CaRow, issued: seq<nat>, published: seq<nat>)
    requires CaOk(before, issued, published) && after.secrets == before.secrets
    requires after.truststore == before.truststore || after.truststore == NoTruststore
             || after.truststore == Truststore(before.secrets.cert)
    ensures CaOk(after, issued, published)
  {
  }

  lemma QuietCertOk(before: CertRow, after: CertRow, ca: CaRow, ca': CaRow, issuances: seq<Issuance>, issued: seq<nat>)
    requires CertOk(before, ca, issuances, issued) && ca'.secrets == ca.secrets
    requires after.secrets == before.secrets && after.revokedAt == before.revokedAt
    ensures CertOk(after, ca', issuances, issued)
  {
  }

  lemma QuietKeepsReads(w: Worker, before: Tables, after: Tables)
    requires Quiet(before, after) && w.caId in before.cas && ReadsCurrent(w, before)
    ensures ReadsCurrent(w, after)
  {
    assert ListCertSecrets(after, w.caId) == ListCertSecrets(before, w.caId);
  }

  lemma QuietKeepsInv(s: Sys, t: Tables)
    requires Inv(s) && Quiet(s.db, t)
    requires t.locks.Keys <= s.db.locks.Keys && forall c :: c in t.locks ==> t.locks[c] == s.db.locks[c]
    ensures Inv(s.(db := t))
  {
    hide RowsOk, ReadsCurrent;
    QuietKeepsRows(s.db, t, s.history);
    forall o | o in s.workers && HoldsLock(t, s.workers[o].caId, o)
      ensures ReadsCurrent(s.workers[o], t)
    {
      assert HoldsLock(s.db, s.workers[o].caId, o);
      QuietKeepsReads(s.workers[o], s.db, t);
    }
  }

  /** A commit under a CA ends its lock, and other CAs' workers see no change. */
  lemma CommitKeepsHolders(s: Sys, owner: OwnerId, caId: CaId, t: Tables, h: History)
    requires LocksOk(s) && HoldersOk(s) && owner in s.workers
    requires t.locks == s.db.locks - {caId}
    requires t.cas.Keys == s.db.cas.Keys && forall c :: c in t.cas && c != caId ==> t.cas[c] == s.db.cas[c]
    requires forall c :: c in s.db.certs && s.db.certs[c].caId != caId ==> c in t.certs && t.certs[c] == s.db.certs[c]
    requires forall c :: c in t.certs && t.certs[c].caId != caId ==> c in s.db.certs && t.certs[c] == s.db.certs[c]
    ensures var s' := AtPhase(s, owner, Finished).(db := t, history := h);
      LocksOk(s') && HoldersOk(s')
  {
    var s' := AtPhase(s, owner, Finished).(db := t, history := h);
    forall o | o in s'.workers && HoldsLock(t, s'.workers[o].caId, o)
      ensures ReadsCurrent(s'.workers[o], t)
    {
      var w := s.workers[o];
      assert HoldsLock(s.db, w.caId, o) && w.caId != caId;
      assert ListCertSecrets(t, w.caId) == ListCertSecrets(s.db, w.caId);
    }
  }

  lemma CreateCaKeepsInv(s: Sys, caId: CaId, commonName: string, made: CaSecrets, crlEnabled: bool)
    requires Inv(s)
    ensures Inv(ApplyCreateCa(s, caId, commonName, made, crlEnabled))
  {
    hide RowsOk, NewCaSecrets;
    if caId !in s.db.cas {
      var secrets := NewCaSecrets(made, crlEnabled);
      var s' := ApplyCreateCa(s, caId, commonName, made, crlEnabled);
      var row := CaRow(commonName, secrets, NoTruststore, false);
      assert caId !in s.history.issued && caId !in s.history.published by {
        HistoryOfCas(s.db.cas, s.db.certs, s.history);
      }
      NewCaOk(commonName, made, crlEnabled);
      assert s'.history.Issued(caId) == [];
      assert s'.history.Published(caId) == if secrets.crl.Crl? then [secrets.crl.number] else [];
      NewCaKeepsRows(s.db.cas, s.db.certs, s.history, caId, row, s'.history);
      forall o | o in s'.workers && HoldsLock(s'.db, s'.workers[o].caId, o)
        ensures ReadsCurrent(s'.workers[o], s'.db)
      {
        assert HoldsLock(s.db, s.workers[o].caId, o);
        assert ListCertSecrets(s'.db, s.workers[o].caId) == ListCertSecrets(s.db, s.workers[o].caId);
      }
    }
  }

  lemma NewCaOk(commonName: string, made: CaSecrets, crlEnabled: bool)
    ensures var secrets := NewCaSecrets(made, crlEnabled);
      CaOk(CaRow(commonName, secrets, NoTruststore, false), [], if secrets.crl.Crl? then [secrets.crl.number] else [])
  {
  }

  lemma HistoryOfCas(cas: map<CaId, CaRow>, certs: map<CertId, CertRow>, h: History)
    requires RowsOk(cas, certs, h)
    ensures h.issued.Keys <= cas.Keys && h.published.Keys <= cas.Keys
  {
  }

  lemma NewCaKeepsRows(cas: map<CaId, CaRow>, certs: map<CertId, CertRow>, h: History, ca: CaId, row: CaRow,
                       h': History)
    requires RowsOk(cas, certs, h) && ca !in cas
    requires h' == h.(issued := h'.issued, published := h'.published)
    requires h'.issued.Keys <= h.issued.Keys + {ca} && h'.published.Keys <= h.published.Keys + {ca}
    requires forall c :: c != ca ==> h'.Issued(c) == h.Issued(c) && h'.Published(c) == h.Published(c)
    requires CaOk(row, h'.Issued(ca), h'.Published(ca))
    ensures RowsOk(cas[ca := row], certs, h')
  {
    hide CaOk, CertOk;
    forall c | c in certs
      ensures CertOk(certs[c], cas[ca := row][certs[c].caId], h'.Row(c), h'.Issued(certs[c].caId))
    {
      assert h'.Row(c) == h.Row(c) && certs[c].caId != ca;
    }
  }

  lemma AcquireKeepsInv(s: Sys, owner: OwnerId, caId: CaId, call: Call, now: int)
    requires Inv(s)
    ensures Inv(ApplyAcquire(s, owner, caId, call, now))
  {
    hide RowsOk;
    var s' := ApplyAcquire(s, owner, caId, call, now);
    if s' != s {
      forall o | o in s'.workers && HoldsLock(s'.db, s'.workers[o].caId, o)
        ensures s'.workers[o].caId in s'.db.cas && ReadsCurrent(s'.workers[o], s'.db)
      {
        if o != owner {
          assert HoldsLock(s.db, s.workers[o].caId, o);
          assert ListCertSecrets(s'.db, s.workers[o].caId) == ListCertSecrets(s.db, s.workers[o].caId);
        }
      }
    }
  }

  /** A read under the lock, or after losing it, never breaks the invariant. */
  lemma ReadKeepsInv(s: Sys, owner: OwnerId, move: Move)
    requires Inv(s) && owner in s.workers
    requires move.CheckUnrevoked? || move.ReadCa? || move.ReadCert? || move.ReadCerts?
    ensures Inv(ApplyAct(s, owner, move))
  {
    hide RowsOk;
    var s' := ApplyAct(s, owner, move);
    forall o | o in s'.workers && HoldsLock(s'.db, s'.workers[o].caId, o)
      ensures ReadsCurrent(s'.workers[o], s'.db)
    {
      assert HoldsLock(s.db, s.workers[o].caId, o);
    }
  }

  lemma IssueKeepsInv(s: Sys, owner: OwnerId, m: Move)
    requires Inv(s) && owner in s.workers && m.CommitIssue?
    ensures Inv(ApplyIssue(s, owner, s.workers[owner], m))
  {
    hide RowsOk, ReadsCurrent;
    var w := s.workers[owner];
    var s' := ApplyIssue(s, owner, w, m);
    if s' != s {
      HolderReadCa(s, owner);
      var leaf := IssueLeaf(w.phase.ca, m.subject, m.rest).value.0;
      IssuanceKeepsRows(s.db.cas, s.db.certs, s.history, w.caId, w.call.certId, m.subject, m.rest,
                        s'.db.certs[w.call.certId]);
      CommitKeepsHolders(s, owner, w.caId, s'.db, s'.history);
    }
  }

  lemma HolderReadCa(s: Sys, owner: OwnerId)
    requires HoldersOk(s) && owner in s.workers && HoldsLock(s.db, s.workers[owner].caId, owner)
    requires s.workers[owner].phase.GotCa? || s.workers[owner].phase.GotCert? || s.workers[owner].phase.GotCerts?
    ensures var w := s.workers[owner];
      w.caId in s.db.cas && w.phase.ca == s.db.cas[w.caId].secrets
  {
  }

  lemma HolderReadCert(s: Sys, owner: OwnerId)
    requires HoldersOk(s) && owner in s.workers && HoldsLock(s.db, s.workers[owner].caId, owner)
    requires s.workers[owner].phase.GotCert?
    ensures var w := s.workers[owner];
      && (w.call.Renew? || w.call.Revoke?) && w.call.certId in s.db.certs
      && s.db.certs[w.call.certId].caId == w.caId && w.phase.cert == s.db.certs[w.call.certId].secrets
      && (w.call.Revoke? ==> s.db.certs[w.call.certId].revokedAt.None?)
  {
  }

  lemma HolderReadCerts(s: Sys, owner: OwnerId)
    requires HoldersOk(s) && owner in s.workers && HoldsLock(s.db, s.workers[owner].caId, owner)
    requires s.workers[owner].phase.GotCerts?
    ensures s.workers[owner].phase.certs == ListCertSecrets(s.db, s.workers[owner].caId)
  {
  }

  lemma ImportKeepsInv(s: Sys, owner: OwnerId, m: Move)
    requires Inv(s) && owner in s.workers && m.CommitImport?
    ensures Inv(ApplyImport(s, owner, s.workers[owner], m))
  {
    hide RowsOk, ReadsCurrent;
    var w := s.workers[owner];
    var s' := ApplyImport(s, owner, w, m);
    if s' != s {
      HolderReadCa(s, owner);
      assert w.call.certId !in s.history.rows by { HistoryOfRows(s.db.cas, s.db.certs, s.history); }
      assert s'.db.cas == s.db.cas;
      RowsOkWithCert(s.db.cas, s.db.certs, s.history, w.call.certId, s'.db.certs[w.call.certId], s.history);
      CommitKeepsHolders(s, owner, w.caId, s'.db, s'.history);
    }
  }

  lemma HistoryOfRows(cas: map<CaId, CaRow>, certs: map<CertId, CertRow>, h: History)
    requires RowsOk(cas, certs, h)
    ensures h.rows.Keys <= certs.Keys
  {
  }

  lemma RenewKeepsInv(s: Sys, owner: OwnerId, m: Move)
    requires Inv(s) && owner in s.workers && m.CommitRenew?
    ensures Inv(ApplyRenew(s, owner, s.workers[owner], m))
  {
    hide RowsOk, ReadsCurrent;
    var w := s.workers[owner];
    var s' := ApplyRenew(s, owner, w, m);
    if s' != s {
      HolderReadCa(s, owner);
      HolderReadCert(s, owner);
      IssuanceKeepsRows(s.db.cas, s.db.certs, s.history, w.caId, w.call.certId, m.subject, m.rest,
                        s'.db.certs[w.call.certId]);
      CommitKeepsHolders(s, owner, w.caId, s'.db, s'.history);
    }
  }

  lemma RevokeKeepsInv(s: Sys, owner: OwnerId, revokedAt: int)
    requires Inv(s) && owner in s.workers
    ensures Inv(ApplyRevoke(s, owner, s.workers[owner], revokedAt))
  {
    hide RowsOk, ReadsCurrent, RevokeFiles;
    var w := s.workers[owner];
    var s' := ApplyRevoke(s, owner, w, revokedAt);
    if s' != s {
      HolderReadCa(s, owner);
      HolderReadCert(s, owner);
      RevocationKeepsRows(s.db.cas, s.db.certs, s.history, w.caId, w.call.certId, w.call.reason, revokedAt);
      RevokeFilesCrl(w.phase.ca, w.phase.cert.cert);
      CommitKeepsHolders(s, owner, w.caId, s'.db, s'.history);
    }
  }

  lemma RevokeFilesCrl(ca: CaSecrets, leaf: Leaf)
    requires RevokeFiles(ca, leaf).Some?
    ensures RevokeFiles(ca, leaf).value.1.Crl?
  {
  }

  lemma RenewCaKeepsInv(s: Sys, owner: OwnerId, m: Move)
    requires Inv(s) && owner in s.workers && m.CommitRenewCa?
    ensures Inv(ApplyRenewCa(s, owner, s.workers[owner], m))
  {
    hide RowsOk, ReadsCurrent;
    var w := s.workers[owner];
    var s' := ApplyRenewCa(s, owner, w, m);
    if s' != s {
      HolderReadCa(s, owner);
      HolderReadCerts(s, owner);
      var ca := s.db.cas[w.caId];
      RowsCrlOk(s.db.cas, s.db.certs, s.history, w.caId);
      var secrets := s'.db.cas[w.caId].secrets;
      assert CrlOk(secrets, s'.history.Published(w.caId)) by {
        if m.crlEnabled {
          PublishKeepsCrl(ca.secrets, s.history.Published(w.caId), secrets);
        }
      }
      CaRenewalKeepsRows(s.db.cas, s.db.certs, s.history, w.caId, secrets,
                         RebuiltBundles(w.phase.certs, m.newCert), s'.history);
      CommitKeepsHolders(s, owner, w.caId, s'.db, s'.history);
    }
  }

  lemma RowsCrlOk(cas: map<CaId, CaRow>, certs: map<CertId, CertRow>, h: History, ca: CaId)
    requires RowsOk(cas, certs, h) && ca in cas
    ensures CrlOk(cas[ca].secrets, h.Published(ca))
  {
  }

  lemma GiveUpKeepsInv(s: Sys, owner: OwnerId)
    requires Inv(s) && owner in s.workers
    ensures Inv(ApplyAct(s, owner, GiveUp))
  {
    hide RowsOk;
    var s' := ApplyAct(s, owner, GiveUp);
    forall o | o in s'.workers && HoldsLock(s'.db, s'.workers[o].caId, o)
      ensures s'.workers[o].caId in s'.db.cas && ReadsCurrent(s'.workers[o], s'.db)
    {
      assert HoldsLock(s.db, s.workers[o].caId, o);
      assert ListCertSecrets(s'.db, s.workers[o].caId) == ListCertSecrets(s.db, s.workers[o].caId);
    }
  }

  lemma BackupKeepsInv(s: Sys)
    requires Inv(s)
    ensures Inv(Apply(s, TakeBackup))
  {
    hide RowsOk;
    QuietKeepsRows(s.db, s.db.(cas := BackupCas(s.db)), s.history);
    QuietKeepsInv(s, s.db);
  }

  lemma PutBackupKeepsInv(s: Sys, snapshot: Snapshot)
    requires Inv(s)
    ensures Inv(ApplyPutBackup(s, snapshot))
  {
    hide RowsOk;
    if s.db.cas == map[] {
      assert s.db.locks.Keys == {};
    }
  }

  predicate IsQuiet(step: Step) {
    step.StoreTruststore? || step.DropCa? || step.UndropCa? || step.DropCert? || step.UndropCert?
  }

  lemma CaDropsAreQuiet(t: Tables, caId: CaId)
    ensures DeleteCa(t, caId).Ok? ==> Quiet(t, DeleteCa(t, caId).value) && DeleteCa(t, caId).value.locks == t.locks
    ensures RestoreCa(t, caId).Ok? ==> Quiet(t, RestoreCa(t, caId).value) && RestoreCa(t, caId).value.locks == t.locks
  {
    hide CaNameTaken;
  }

  lemma CertDropsAreQuiet(t: Tables, caId: CaId, certId: CertId)
    ensures var r := DeleteCert(t, caId, certId);
      r.Ok? ==> Quiet(t, r.value) && r.value.locks == t.locks
    ensures var r := RestoreCert(t, caId, certId);
      r.Ok? ==> Quiet(t, r.value) && r.value.locks == t.locks
  {
    hide CertNameTaken;
  }

  lemma QuietStep(s: Sys, step: Step)
    requires IsQuiet(step)
    ensures Quiet(s.db, Apply(s, step).db) && Apply(s, step) == s.(db := Apply(s, step).db)
    ensures Apply(s, step).db.locks == s.db.locks
  {
    hide DeleteCa, RestoreCa, DeleteCert, RestoreCert;
    match step
    case StoreTruststore(caId, builtFrom) =>
    case DropCa(caId) => CaDropsAreQuiet(s.db, caId);
    case UndropCa(caId) => CaDropsAreQuiet(s.db, caId);
    case DropCert(caId, certId) => CertDropsAreQuiet(s.db, caId, certId);
    case UndropCert(caId, certId) => CertDropsAreQuiet(s.db, caId, certId);
  }

  lemma QuietStepKeepsInv(s: Sys, step: Step)
    requires Inv(s) && IsQuiet(step)
    ensures Inv(Apply(s, step))
  {
    hide Inv, Apply, Quiet;
    QuietStep(s, step);
    QuietKeepsInv(s, Apply(s, step).db);
  }

  lemma StepKeepsInv(s: Sys, step: Step)
    requires Inv(s)
    ensures Inv(Apply(s, step))
  {
    hide Inv, ApplyCreateCa, ApplyAcquire, ApplyAct, ApplyPutBackup;
    match step
    case CreateCa(caId, commonName, made, crlEnabled) => CreateCaKeepsInv(s, caId, commonName, made, crlEnabled);
    case Acquire(owner, caId, call, now) => AcquireKeepsInv(s, owner, caId, call, now);
    case Act(owner, move) =>
      if owner in s.workers {
        ActKeepsInv(s, owner, move);
      } else {
        assert ApplyAct(s, owner, move) == s by { ActOfNobody(s, owner, move); }
      }
    case StoreTruststore(_, _) => QuietStepKeepsInv(s, step);
    case DropCa(_) => QuietStepKeepsInv(s, step);
    case UndropCa(_) => QuietStepKeepsInv(s, step);
    case DropCert(_, _) => QuietStepKeepsInv(s, step);
    case UndropCert(_, _) => QuietStepKeepsInv(s, step);
    case Nuke => NukeKeepsInv(s);
    case TakeBackup => BackupKeepsInv(s);
    case PutBackup(snapshot) => PutBackupKeepsInv(s, snapshot);
  }

  lemma ActOfNobody(s: Sys, owner: OwnerId, move: Move)
    requires owner !in s.workers
    ensures ApplyAct(s, owner, move) == s
  {
  }

  lemma NukeKeepsInv(s: Sys)
    requires Inv(s)
    ensures Inv(Apply(s, Nuke))
  {
  }

  lemma ActKeepsInv(s: Sys, owner: OwnerId, move: Move)
    requires Inv(s) && owner in s.workers
    ensures Inv(ApplyAct(s, owner, move))
  {
    hide Inv;
    match move
    case CheckUnrevoked => ReadKeepsInv(s, owner, move);
    case ReadCa => ReadKeepsInv(s, owner, move);
    case ReadCert => ReadKeepsInv(s, owner, move);
    case ReadCerts => ReadKeepsInv(s, owner, move);
    case CommitIssue(_, _, _, _, _, _) => IssueKeepsInv(s, owner, move);
    case CommitImport(_, _, _, _, _) => ImportKeepsInv(s, owner, move);
    case CommitRenew(_, _, _, _) => RenewKeepsInv(s, owner, move);
    case CommitRevoke(revokedAt) => RevokeKeepsInv(s, owner, revokedAt);
    case CommitRenewCa(_, _, _) => RenewCaKeepsInv(s, owner, move);
    case GiveUp => GiveUpKeepsInv(s, owner);
  }

  /** The invariant holds after every run. */
  lemma {:induction false} ExecKeepsInv(steps: seq<Step>)
    ensures Inv(Exec(steps))
  {
    if steps == [] {
      InvInitially();
    } else {
      ExecKeepsInv(steps[..|steps| - 1]);
      StepKeepsInv(Exec(steps[..|steps| - 1]), steps[|steps| - 1]);
    }
  }

  lemma InvInitially()
    ensures Inv(Init())
  {
  }
}
