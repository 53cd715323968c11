/**
 The rows of the signing tables (`certificate_authorities`, `certificates`, `ca_locks`), the files the
 external `openssl ca` command rewrites, and the effect of every transaction of src/db.rs as a function
 from tables to tables. A transaction that fails is rolled back, so it is an `Err` without tables.
 */
module CaTables {
  import opened Texts
  import opened Wrappers

  type CaId = string
  type CertId = string
  /** A random lock owner id (a UUID in the service). */
  type OwnerId = nat
  /** File contents that are only stored, copied and compared. */
  type Blob = string

  /** A leaf certificate: what the index records of it, and everything else. */
  datatype Leaf = Leaf(serial: nat, subject: string, rest: Blob)

  /** The download ZIP, by member. */
  datatype Bundle = Bundle(csr: Blob, key: Blob, pkcs12: Blob, cert: Leaf, password: Blob, caCert: Blob)

  datatype CertSecrets = CertSecrets(cert: Leaf, key: Blob, csr: Blob, pkcs12: Blob, password: Blob, bundle: Bundle)

  datatype Status = Valid | Revoked

  /** One line of index.txt. */
  datatype Entry = Entry(status: Status, serial: nat, subject: string)

  datatype Crl = NoCrl | Crl(number: nat, serials: seq<nat>)

  datatype Truststore = NoTruststore | Truststore(caCert: Blob)

  datatype CaSecrets = CaSecrets(
    cert: Blob, key: Blob, pkcs12: Blob, password: Blob,
    index: seq<Entry>, serial: nat, crl: Crl, crlNumber: Option<nat>)

  datatype CaRow = CaRow(commonName: string, secrets: CaSecrets, truststore: Truststore, deleted: bool)

  datatype CertRow = CertRow(
    caId: CaId, commonName: string, secrets: CertSecrets, deleted: bool,
    revokedAt: Option<int>, reason: Option<string>)

  datatype LockRow = LockRow(owner: OwnerId, expiresAt: int)

  datatype Tables = Tables(cas: map<CaId, CaRow>, certs: map<CertId, CertRow>, locks: map<CaId, LockRow>)

  datatype DbError = Busy | LostLock | NotFound | AlreadyExists | NameTaken | CaIsDeleted | NotEmpty

  // ----- openssl -----

  ghost predicate HasSerial(index: seq<Entry>, serial: nat) {
    exists i :: 0 <= i < |index| && index[i].serial == serial
  }

  ghost predicate HasEntry(index: seq<Entry>, serial: nat, subject: string) {
    exists i :: 0 <= i < |index| && index[i].serial == serial && index[i].subject == subject
  }

  ghost predicate IsRevoked(index: seq<Entry>, serial: nat) {
    exists i :: 0 <= i < |index| && index[i].serial == serial && index[i].status == Revoked
  }

  ghost predicate DistinctSerials(index: seq<Entry>) {
    forall i, j :: 0 <= i < j < |index| ==> index[i].serial != index[j].serial
  }

  /** Position of the first entry with this serial, or the length of the index. */
  function FindSerial(index: seq<Entry>, serial: nat): (k: nat)
    ensures k <= |index|
    ensures k < |index| ==> index[k].serial == serial
    ensures forall i :: 0 <= i < k ==> index[i].serial != serial
  {
    if index == [] then 0
    else if index[0].serial == serial then 0
    else 1 + FindSerial(index[1..], serial)
  }

  /** Position of the first `R` entry with this serial, or the length of the index. */
  function FindRevoked(index: seq<Entry>, serial: nat): (k: nat)
    ensures k <= |index|
    ensures k < |index| ==> index[k].serial == serial && index[k].status == Revoked
    ensures forall i :: 0 <= i < k ==> !(index[i].serial == serial && index[i].status == Revoked)
  {
    if index == [] then 0
    else if index[0].serial == serial && index[0].status == Revoked then 0
    else 1 + FindRevoked(index[1..], serial)
  }

  /** The serials a CRL generated from this index lists, in index order. */
  function RevokedSerials(index: seq<Entry>): (serials: seq<nat>)
    ensures forall s: nat :: s in serials <==> IsRevoked(index, s)
  {
    if index == [] then []
    else
      var rest := RevokedSerials(index[..|index| - 1]);
      var last := index[|index| - 1];
      assert forall s: nat :: IsRevoked(index, s) <==>
          IsRevoked(index[..|index| - 1], s) || (last.status == Revoked && last.serial == s);
      if last.status == Revoked then rest + [last.serial] else rest
  }

  /** `openssl ca -infiles`: signs under the current serial, which must not be in the index yet. */
  function IssueLeaf(ca: CaSecrets, subject: string, rest: Blob): (r: Option<(Leaf, seq<Entry>, nat)>)
  {
    if FindSerial(ca.index, ca.serial) < |ca.index| then None
    else Some((Leaf(ca.serial, subject, rest), ca.index + [Entry(Valid, ca.serial, subject)], ca.serial + 1))
  }

  /** `openssl ca -revoke`: flips the certificate's entry, adding one when the index has none. */
  function RevokeLeaf(index: seq<Entry>, cert: Leaf): (r: Option<seq<Entry>>)
  {
    var k := FindSerial(index, cert.serial);
    if k == |index| then Some(index + [Entry(Revoked, cert.serial, cert.subject)])
    else if index[k].status == Revoked then None
    else Some(index[k := index[k].(status := Revoked)])
  }

  /** Every `V` entry with this subject becomes `R`. */
  function RevokeSubject(index: seq<Entry>, subject: string): (r: seq<Entry>)
    ensures |r| == |index|
    ensures forall i :: 0 <= i < |index| ==>
      r[i] == if index[i].status == Valid && index[i].subject == subject
              then index[i].(status := Revoked) else index[i]
  {
    seq(|index|, i requires 0 <= i < |index| =>
      if index[i].status == Valid && index[i].subject == subject
      then index[i].(status := Revoked) else index[i])
  }

  /** The index rewrite that ties a revoked certificate to its earlier serials (see IndexText). */
  function RevokeSuperseded(index: seq<Entry>, serial: nat): (r: seq<Entry>) {
    var k := FindRevoked(index, serial);
    if k == |index| then index else RevokeSubject(index, index[k].subject)
  }

  /** The CRL number the next `-gencrl` uses; CAs without a stored number start at 1. */
  function NextCrlNumber(ca: CaSecrets): nat {
    match ca.crlNumber
    case None => 1
    case Some(n) => n
  }

  /** `openssl ca -gencrl`. */
  function GenerateCrl(ca: CaSecrets): (r: (Crl, nat)) {
    (Crl(NextCrlNumber(ca), RevokedSerials(ca.index)), NextCrlNumber(ca) + 1)
  }

  /** All of `revoke_cert_files`: revoke, revoke the superseded serials, regenerate the CRL. */
  function RevokeFiles(ca: CaSecrets, cert: Leaf): (r: Option<(seq<Entry>, Crl, nat)>) {
    match RevokeLeaf(ca.index, cert)
    case None => None
    case Some(revoked) =>
      var index := RevokeSuperseded(revoked, cert.serial);
      var refresh := GenerateCrl(ca.(index := index));
      Some((index, refresh.0, refresh.1))
  }

  function BuildBundle(secrets: CertSecrets, caCert: Blob): Bundle {
    Bundle(secrets.csr, secrets.key, secrets.pkcs12, secrets.cert, secrets.password, caCert)
  }

  // ----- names -----

  function TrimSpacesLeft(s: string): string {
    if s != [] && s[0] == ' ' then TrimSpacesLeft(s[1..]) else s
  }

  function TrimSpacesRight(s: string): string {
    if s != [] && s[|s| - 1] == ' ' then TrimSpacesRight(s[..|s| - 1]) else s
  }

  /** SQLite's `lower(trim(x))`: spaces off both ends, ASCII letters lowered. */
  function FoldName(s: string): string {
    Lower(TrimSpacesRight(TrimSpacesLeft(s)))
  }

  // ----- reads -----

  predicate ActiveCa(t: Tables, caId: CaId) {
    caId in t.cas && !t.cas[caId].deleted
  }

  function GetCaSecrets(t: Tables, caId: CaId): Option<CaSecrets> {
    if ActiveCa(t, caId) then Some(t.cas[caId].secrets) else None
  }

  function GetCert(t: Tables, caId: CaId, certId: CertId): Option<CertRow> {
    if certId in t.certs && t.certs[certId].caId == caId && !t.certs[certId].deleted && ActiveCa(t, caId)
    then Some(t.certs[certId]) else None
  }

  /** Every certificate of the CA, soft-deleted ones too. */
  function ListCertSecrets(t: Tables, caId: CaId): map<CertId, CertSecrets> {
    map c | c in t.certs && t.certs[c].caId == caId :: t.certs[c].secrets
  }

  /** The service trims the name it asks for of all blanks, the query the stored one of spaces only. */
  predicate CaNameExists(t: Tables, commonName: string) {
    exists c :: c in t.cas && !t.cas[c].deleted && FoldName(t.cas[c].commonName) == Lower(Trim(commonName))
  }

  predicate CertNameExists(t: Tables, caId: CaId, commonName: string) {
    exists c :: c in t.certs && !t.certs[c].deleted && t.certs[c].caId == caId
                && FoldName(t.certs[c].commonName) == Lower(Trim(commonName))
  }

  predicate HoldsLock(t: Tables, caId: CaId, owner: OwnerId) {
    caId in t.locks && t.locks[caId].owner == owner
  }

  // ----- transactions -----

  function WithCa(t: Tables, caId: CaId, row: CaRow): Tables {
    t.(cas := t.cas[caId := row])
  }

  function WithCert(t: Tables, certId: CertId, row: CertRow): Tables {
    t.(certs := t.certs[certId := row])
  }

  function WithoutLock(t: Tables, caId: CaId): Tables {
    t.(locks := t.locks - {caId})
  }

  function LiveLocks(locks: map<CaId, LockRow>, now: int): map<CaId, LockRow> {
    map c | c in locks && locks[c].expiresAt >= now :: locks[c]
  }

  function AcquireCaLock(t: Tables, caId: CaId, owner: OwnerId, now: int, ttl: int): (r: Result<Tables, DbError>) {
    var live := LiveLocks(t.locks, now);
    if caId in live then Err(Busy)
    else if caId !in t.cas then Err(NotFound)  // foreign key of ca_locks
    else Ok(t.(locks := live[caId := LockRow(owner, now + ttl)]))
  }

  function ReleaseCaLock(t: Tables, caId: CaId, owner: OwnerId): Tables {
    if HoldsLock(t, caId, owner) then WithoutLock(t, caId) else t
  }

  function InsertCa(t: Tables, caId: CaId, commonName: string, secrets: CaSecrets): (r: Result<Tables, DbError>) {
    if caId in t.cas then Err(AlreadyExists)
    else Ok(WithCa(t, caId, CaRow(commonName, secrets, NoTruststore, false)))
  }

  function InsertCertWithState(t: Tables, certId: CertId, caId: CaId, commonName: string, secrets: CertSecrets,
                               caState: Option<(seq<Entry>, nat)>, owner: OwnerId): (r: Result<Tables, DbError>)
  {
    if !HoldsLock(t, caId, owner) then Err(LostLock)
    else if !ActiveCa(t, caId) then Err(NotFound)
    else if certId in t.certs then Err(AlreadyExists)
    else
      var ca := t.cas[caId];
      var ca' := match caState
        case None => ca
        case Some(state) => ca.(secrets := ca.secrets.(index := state.0, serial := state.1));
      var row := CertRow(caId, commonName, secrets, false, None, None);
      Ok(WithoutLock(WithCert(WithCa(t, caId, ca'), certId, row), caId))
  }

  function UpdateCertWithState(t: Tables, caId: CaId, certId: CertId, cert: Leaf, pkcs12: Blob, bundle: Bundle,
                               caState: (seq<Entry>, nat), owner: OwnerId): (r: Result<Tables, DbError>)
  {
    if !HoldsLock(t, caId, owner) then Err(LostLock)
    else if !(certId in t.certs && t.certs[certId].caId == caId && !t.certs[certId].deleted
              && t.certs[certId].revokedAt == None) then Err(NotFound)
    else if !ActiveCa(t, caId) then Err(NotFound)
    else
      var ca := t.cas[caId];
      var row := t.certs[certId];
      var secrets := row.secrets.(cert := cert, pkcs12 := pkcs12, bundle := bundle);
      Ok(WithoutLock(
           WithCa(WithCert(t, certId, row.(secrets := secrets)), caId,
                  ca.(secrets := ca.secrets.(index := caState.0, serial := caState.1))), caId))
  }

  /** Unlike a renewal, this update does not look at `revoked_at`. */
  function RevokeCertWithState(t: Tables, caId: CaId, certId: CertId, reason: string, revokedAt: int,
                               caState: (seq<Entry>, nat), crl: (Crl, nat), owner: OwnerId): (r: Result<Tables, DbError>)
  {
    if !HoldsLock(t, caId, owner) then Err(LostLock)
    else if !(certId in t.certs && t.certs[certId].caId == caId && !t.certs[certId].deleted) then Err(NotFound)
    else if !ActiveCa(t, caId) then Err(NotFound)
    else
      var ca := t.cas[caId];
      var row := t.certs[certId].(revokedAt := Some(revokedAt), reason := Some(reason));
      var secrets := ca.secrets.(index := caState.0, serial := caState.1, crl := crl.0, crlNumber := Some(crl.1));
      Ok(WithoutLock(WithCa(WithCert(t, certId, row), caId, ca.(secrets := secrets)), caId))
  }

  function WithBundles(certs: map<CertId, CertRow>, caId: CaId, bundles: map<CertId, Bundle>): map<CertId, CertRow> {
    map c | c in certs ::
      if c in bundles && certs[c].caId == caId
      then certs[c].(secrets := certs[c].secrets.(bundle := bundles[c])) else certs[c]
  }

  function RenewCaWithState(t: Tables, caId: CaId, cert: Blob, pkcs12: Blob, crl: Option<(Crl, nat)>,
                            bundles: map<CertId, Bundle>, owner: OwnerId): (r: Result<Tables, DbError>)
  {
    if !HoldsLock(t, caId, owner) then Err(LostLock)
    else if !ActiveCa(t, caId) then Err(NotFound)
    else
      var ca := t.cas[caId];
      var renewed := ca.secrets.(cert := cert, pkcs12 := pkcs12);
      var secrets := match crl
        case None => renewed
        case Some(c) => renewed.(crl := c.0, crlNumber := Some(c.1));
      Ok(WithoutLock(
           WithCa(t, caId, ca.(secrets := secrets, truststore := NoTruststore))
           .(certs := WithBundles(t.certs, caId, bundles)), caId))
  }

  /** Stores only while `cert` is still the CA's certificate; otherwise changes nothing. */
  function SetCaTruststore(t: Tables, caId: CaId, cert: Blob, truststore: Truststore): Tables {
    if ActiveCa(t, caId) && t.cas[caId].secrets.cert == cert
    then WithCa(t, caId, t.cas[caId].(truststore := truststore)) else t
  }

  function DeleteCa(t: Tables, caId: CaId): (r: Result<Tables, DbError>) {
    if !ActiveCa(t, caId) then Err(NotFound)
    else Ok(WithCa(t, caId, t.cas[caId].(deleted := true)))
  }

  predicate CaNameTaken(t: Tables, commonName: string) {
    exists c :: c in t.cas && !t.cas[c].deleted && FoldName(t.cas[c].commonName) == FoldName(commonName)
  }

  function RestoreCa(t: Tables, caId: CaId): (r: Result<Tables, DbError>) {
    if caId !in t.cas || !t.cas[caId].deleted then Err(NotFound)
    else if CaNameTaken(t, t.cas[caId].commonName) then Err(NameTaken)
    else Ok(WithCa(t, caId, t.cas[caId].(deleted := false)))
  }

  function DeleteCert(t: Tables, caId: CaId, certId: CertId): (r: Result<Tables, DbError>) {
    if certId in t.certs && t.certs[certId].caId == caId && !t.certs[certId].deleted
    then Ok(WithCert(t, certId, t.certs[certId].(deleted := true)))
    else Err(NotFound)
  }

  predicate CertNameTaken(t: Tables, caId: CaId, commonName: string) {
    exists c :: c in t.certs && !t.certs[c].deleted && t.certs[c].caId == caId
                && FoldName(t.certs[c].commonName) == FoldName(commonName)
  }

  function RestoreCert(t: Tables, caId: CaId, certId: CertId): (r: Result<Tables, DbError>) {
    if !(certId in t.certs && t.certs[certId].caId == caId && t.certs[certId].deleted) then Err(NotFound)
    else if !ActiveCa(t, caId) then Err(CaIsDeleted)
    else if CertNameTaken(t, caId, t.certs[certId].commonName) then Err(NameTaken)
    else Ok(WithCert(t, certId, t.certs[certId].(deleted := false)))
  }

  function NukeAll(t: Tables): Tables {
    Tables(map[], map[], map[])
  }

  /** The signing rows of a backup; truststores and locks are not part of it. */
  function BackupCas(t: Tables): map<CaId, CaRow> {
    map c | c in t.cas :: t.cas[c].(truststore := NoTruststore)
  }

  function RestoreBackup(t: Tables, cas: map<CaId, CaRow>, certs: map<CertId, CertRow>): (r: Result<Tables, DbError>) {
    if t.cas != map[] || t.certs != map[] then Err(NotEmpty)
    else Ok(t.(cas := cas, certs := certs))
  }
}
