/** Backup and restore (src/service.rs, src/db.rs): tables to rows to a file of text, and back. */
module Backup {
  import opened Wrappers
  import opened ByteStrings
  import opened Texts
  import T = Templates

  // ----- rows; `B` is how binary columns are held, `L` how lists are -----

  datatype User = User(id: string, username: string, passwordHash: string, role: string, createdAt: int)

  datatype CaMeta = CaMeta(
    id: string, commonName: string, countryCode: string, state: string, city: string, organization: string,
    organizationUnit: string, subject: string, issueTime: int, validDays: int, keyProfile: string,
    digestAlgorithm: string)

  datatype CaSecrets<B> = CaSecrets(
    certPem: B, keyPem: B, pkcs12: B, password: B, indexTxt: B, serialTxt: B, crlDer: B, crlUpdatedAt: int,
    crlnumberTxt: B)

  datatype CaRow<B> = CaRow(meta: CaMeta, secrets: CaSecrets<B>, deleted: bool, createdAt: int, updatedAt: int)

  datatype CertMeta<L> = CertMeta(
    id: string, caId: string, commonName: string, countryCode: string, state: string, city: string,
    organization: string, organizationUnit: string, subject: string, issueTime: int, validDays: int, dns: L, ips: L,
    keyProfile: string, digestAlgorithm: string, revokedAt: Option<int>, revocationReason: Option<string>)

  datatype CertSecrets<B> = CertSecrets(certPem: B, keyPem: B, csrPem: B, pkcs12: B, password: B, bundleZip: B)

  datatype CertRow<L, B> = CertRow(
    meta: CertMeta<L>, secrets: CertSecrets<B>, deleted: bool, createdAt: int, updatedAt: int)

  type List = seq<string>

  /** A CA with its certificates. */
  datatype CaEntry<B> = CaEntry(ca: CaRow<B>, certs: seq<CertRow<List, B>>)

  /** The content of a backup: `Snapshot<Bytes>` in memory, `Snapshot<string>` in the file. */
  datatype Snapshot<B> = Snapshot(users: seq<User>, templates: seq<T.Template>, cas: seq<CaEntry<B>>)

  datatype StoredCa = StoredCa(row: CaRow<Bytes>, truststore: Bytes)

  type StoredCert = CertRow<string, Bytes>

  datatype Db = Db(
    users: map<string, User>, templates: map<string, T.Template>, cas: map<string, StoredCa>,
    certs: map<string, StoredCert>)

  /** What the tables' keys, unique indexes and foreign key guarantee. */
  ghost predicate DbOk(db: Db) {
    && (forall k :: k in db.users ==> db.users[k].id == k)
    && (forall k :: k in db.templates ==> db.templates[k].id == k)
    && (forall k :: k in db.cas ==> db.cas[k].row.meta.id == k)
    && (forall k :: k in db.certs ==> db.certs[k].meta.id == k && db.certs[k].meta.caId in db.cas)
    && (forall a, b :: a in db.users && b in db.users && a != b ==> db.users[a].username != db.users[b].username)
    && (forall a, b :: a in db.templates && b in db.templates && a != b ==>
          Lower(db.templates[a].name) != Lower(db.templates[b].name))
  }

  /** The foreign code: base64, lossy UTF-8 decoding, Unicode upper case. */
  datatype Codec = Codec(
    encode: Bytes -> string, decode: string -> Option<Bytes>, lossy: Bytes -> string, upper: string -> string)

  ghost predicate Lawful(c: Codec) {
    forall b: Bytes :: c.decode(c.encode(b)) == Some(b)
  }

  // ----- lists in one column -----

  function JoinList(list: List): string {
    Join(list, ';')
  }

  function NonEmptyTrimmed(pieces: seq<string>): List {
    if pieces == [] then []
    else (if Trim(pieces[0]) == "" then [] else [Trim(pieces[0])]) + NonEmptyTrimmed(pieces[1..])
  }

  /** `split_list`. */
  function SplitList(column: string): List {
    NonEmptyTrimmed(Split(column, ';'))
  }

  predicate IsEntry(piece: string) {
    piece != "" && Trim(piece) == piece
  }

  /** A column holding trimmed, nonempty entries. */
  predicate NormalList(column: string) {
    column == "" || forall i :: 0 <= i < |Split(column, ';')| ==> IsEntry(Split(column, ';')[i])
  }

  lemma {:induction false} EntriesStay(pieces: seq<string>)
    requires forall i :: 0 <= i < |pieces| ==> IsEntry(pieces[i])
    ensures NonEmptyTrimmed(pieces) == pieces
  {
    hide Trim;
    if pieces != [] {
      EntriesStay(pieces[1..]);
    }
  }

  lemma TrimPart(s: string)
    ensures forall c :: c in Trim(s) ==> c in s
    ensures Trim(Trim(s)) == Trim(s)
  {
    var t := TrimStart(s);
    var r := TrimEnd(t);
    assert forall c :: c in r ==> c in t;
  }

  lemma {:induction false} EntriesAreTrimmed(pieces: seq<string>)
    requires forall i :: 0 <= i < |pieces| ==> Free(pieces[i], ';')
    ensures forall i :: 0 <= i < |NonEmptyTrimmed(pieces)| ==>
      IsEntry(NonEmptyTrimmed(pieces)[i]) && Free(NonEmptyTrimmed(pieces)[i], ';')
  {
    hide Trim;
    if pieces != [] {
      EntriesAreTrimmed(pieces[1..]);
      TrimPart(pieces[0]);
    }
  }

  /** A list column is written back as it was read exactly when it is normal. */
  lemma ListRoundTrip(column: string)
    ensures JoinList(SplitList(column)) == column <==> NormalList(column)
  {
    hide Split, Join, Trim;
    var pieces := Split(column, ';');
    var list := SplitList(column);
    SplitPieces(column, ';');
    EntriesAreTrimmed(pieces);
    JoinSplit(column, ';');
    if NormalList(column) {
      if column == "" {
        EmptyList();
      } else {
        EntriesStay(pieces);
      }
    }
    if JoinList(list) == column && list != [] {
      SplitJoin(list, ';');
    } else if list == [] {
      JoinNothing();
    }
  }

  lemma EmptyList()
    ensures JoinList(SplitList("")) == ""
  {
    assert Split("", ';') == [""];
    assert Trim("") == "";
    assert NonEmptyTrimmed([""][1..]) == [];
  }

  lemma JoinNothing()
    ensures JoinList([]) == ""
  {
  }

  // ----- validation of a file -----

  predicate IsControl(c: char) {
    c as int < 32 || 127 <= c as int < 160
  }

  predicate NoControl(s: string) {
    forall i :: 0 <= i < |s| ==> !IsControl(s[i])
  }

  predicate IsIdChar(c: char) {
    'a' <= c <= 'z' || 'A' <= c <= 'Z' || '0' <= c <= '9' || c == '-' || c == '_'
  }

  predicate ValidId(id: string) {
    1 <= |id| <= 64 && forall i :: 0 <= i < |id| ==> IsIdChar(id[i])
  }

  predicate EndsWith(s: string, tail: string) {
    |tail| <= |s| && s[|s| - |tail|..] == tail
  }

  predicate IsPem(bytes: Bytes, name: string, c: Codec) {
    var lines := Lines(c.lossy(bytes));
    exists i :: 0 <= i < |lines| && "-----BEGIN " <= Trim(lines[i]) && EndsWith(Trim(lines[i]), name + "-----")
  }

  predicate IsHexState(bytes: Bytes, allowEmpty: bool, c: Codec) {
    var value := Trim(c.lossy(bytes));
    if value == "" then allowEmpty
    else forall i :: 0 <= i < |value| ==> HexDigitOf(value[i] as int).Some?
  }

  predicate IsRole(role: string) {
    role == "admin" || role == "viewer"
  }

  /** `Role::parse` and back; no letter of the two names is the lower case of anything but an ASCII letter. */
  function NormalRole(role: string): Option<string> {
    var name := Lower(Trim(role));
    if IsRole(name) then Some(name) else None
  }

  function Clean(value: Option<string>): Option<string> {
    if value.Some? && Trim(value.value) != "" then Some(Trim(value.value)) else None
  }

  function Map(value: Option<string>, f: string -> string): Option<string> {
    if value.Some? then Some(f(value.value)) else None
  }

  function NormalValues(v: T.Values, upper: string -> string): T.Values {
    T.Values(Map(Clean(v.countryCode), upper), Clean(v.state), Clean(v.city), Clean(v.organization),
             Clean(v.organizationUnit), v.validDays, Map(Clean(v.digestAlgorithm), Lower), Map(Clean(v.keyProfile), Lower))
  }

  predicate IsLetter(c: char) {
    'a' <= c <= 'z' || 'A' <= c <= 'Z'
  }

  predicate ShortText(value: Option<string>) {
    value.Some? ==> NoControl(value.value) && |value.value| <= 200
  }

  const KEY_PROFILES := ["rsa:2048", "rsa:4096", "rsa:8192", "ecdsa:prime256v1", "ecdsa:secp384r1", "ecdsa:secp521r1"]

  predicate ValidValues(v: T.Values) {
    && (v.validDays.Some? ==> 1 <= v.validDays.value <= 7350)
    && (v.countryCode.Some? ==>
          |v.countryCode.value| == 2 && IsLetter(v.countryCode.value[0]) && IsLetter(v.countryCode.value[1]))
    && (v.digestAlgorithm.Some? ==> v.digestAlgorithm.value in ["sha256", "sha384", "sha512"])
    && (v.keyProfile.Some? ==> v.keyProfile.value in KEY_PROFILES)
    && ShortText(v.countryCode) && ShortText(v.state) && ShortText(v.city) && ShortText(v.organization)
    && ShortText(v.organizationUnit)
  }

  predicate KnownReason(reason: string) {
    Trim(reason) in ["", "unspecified", "keyCompromise", "CACompromise", "affiliationChanged", "superseded",
                     "cessationOfOperation", "certificateHold", "removeFromCRL", "privilegeWithdrawn", "AACompromise"]
  }

  predicate ValidEntry(entry: string) {
    ';' !in entry && NoControl(entry)
  }

  predicate ValidEntries(list: List) {
    forall i :: 0 <= i < |list| ==> ValidEntry(list[i])
  }

  function CheckUser(u: User): Option<User> {
    var role :- NormalRole(u.role);
    if Trim(u.username) == "" || !NoControl(u.username) then None else Some(u.(role := role))
  }

  function CheckTemplate(t: T.Template, c: Codec): Option<T.Template> {
    var scope :- T.ParseScope(t.scopeText);
    var values := NormalValues(t.values, c.upper);
    var name := Trim(t.name);
    if !ValidId(t.id) || !ValidValues(values) || name == "" || !NoControl(name) then None
    else Some(t.(name := name, scopeText := T.ScopeName(scope), values := values))
  }

  function DecodeCaSecrets(s: CaSecrets<string>, c: Codec): Option<CaSecrets<Bytes>> {
    var certPem :- c.decode(s.certPem);
    var keyPem :- c.decode(s.keyPem);
    var pkcs12 :- c.decode(s.pkcs12);
    var password :- c.decode(s.password);
    var indexTxt :- c.decode(s.indexTxt);
    var serialTxt :- c.decode(s.serialTxt);
    var crlDer :- c.decode(s.crlDer);
    var crlnumberTxt :- c.decode(s.crlnumberTxt);
    Some(CaSecrets(certPem, keyPem, pkcs12, password, indexTxt, serialTxt, crlDer, s.crlUpdatedAt, crlnumberTxt))
  }

  function DecodeCertSecrets(s: CertSecrets<string>, c: Codec): Option<CertSecrets<Bytes>> {
    var certPem :- c.decode(s.certPem);
    var keyPem :- c.decode(s.keyPem);
    var csrPem :- c.decode(s.csrPem);
    var pkcs12 :- c.decode(s.pkcs12);
    var password :- c.decode(s.password);
    var bundleZip :- c.decode(s.bundleZip);
    Some(CertSecrets(certPem, keyPem, csrPem, pkcs12, password, bundleZip))
  }

  predicate CaSecretsOk(s: CaSecrets<Bytes>, c: Codec) {
    IsPem(s.certPem, "CERTIFICATE", c) && IsPem(s.keyPem, "PRIVATE KEY", c)
    && IsHexState(s.serialTxt, false, c) && IsHexState(s.crlnumberTxt, true, c)
  }

  predicate CertSecretsOk(s: CertSecrets<Bytes>, c: Codec) {
    IsPem(s.certPem, "CERTIFICATE", c) && IsPem(s.keyPem, "PRIVATE KEY", c) && IsPem(s.csrPem, "CERTIFICATE REQUEST", c)
  }

  function CheckCa(ca: CaRow<string>, c: Codec): Option<CaRow<Bytes>> {
    var secrets :- DecodeCaSecrets(ca.secrets, c);
    if !ValidId(ca.meta.id) || !CaSecretsOk(secrets, c) then None
    else Some(CaRow(ca.meta, secrets, ca.deleted, ca.createdAt, ca.updatedAt))
  }

  function CheckCert(caId: string, cert: CertRow<List, string>, c: Codec): Option<CertRow<List, Bytes>> {
    var secrets :- DecodeCertSecrets(cert.secrets, c);
    if !ValidId(cert.meta.id) || cert.meta.caId != caId || !ValidEntries(cert.meta.dns) || !ValidEntries(cert.meta.ips)
       || (cert.meta.revocationReason.Some? && !KnownReason(cert.meta.revocationReason.value))
       || !CertSecretsOk(secrets, c)
    then None
    else Some(CertRow(cert.meta, secrets, cert.deleted, cert.createdAt, cert.updatedAt))
  }

  function CheckUsers(users: seq<User>): Option<seq<User>> {
    if users == [] then Some([])
    else
      var rest :- CheckUsers(users[..|users| - 1]);
      var user :- CheckUser(users[|users| - 1]);
      Some(rest + [user])
  }

  function CheckTemplates(templates: seq<T.Template>, c: Codec): Option<seq<T.Template>> {
    if templates == [] then Some([])
    else
      var rest :- CheckTemplates(templates[..|templates| - 1], c);
      var template :- CheckTemplate(templates[|templates| - 1], c);
      Some(rest + [template])
  }

  function CheckCerts(caId: string, certs: seq<CertRow<List, string>>, c: Codec): Option<seq<CertRow<List, Bytes>>> {
    if certs == [] then Some([])
    else
      var rest :- CheckCerts(caId, certs[..|certs| - 1], c);
      var cert :- CheckCert(caId, certs[|certs| - 1], c);
      Some(rest + [cert])
  }

  function CheckEntry(e: CaEntry<string>, c: Codec): Option<CaEntry<Bytes>> {
    var ca :- CheckCa(e.ca, c);
    var certs :- CheckCerts(e.ca.meta.id, e.certs, c);
    Some(CaEntry(ca, certs))
  }

  function CheckEntries(cas: seq<CaEntry<string>>, c: Codec): Option<seq<CaEntry<Bytes>>> {
    if cas == [] then Some([])
    else
      var rest :- CheckEntries(cas[..|cas| - 1], c);
      var entry :- CheckEntry(cas[|cas| - 1], c);
      Some(rest + [entry])
  }

  /** `backup_to_snapshot`: every row checked and decoded, or nothing. */
  function ToSnapshot(file: Snapshot<string>, c: Codec): Option<Snapshot<Bytes>> {
    var users :- CheckUsers(file.users);
    var templates :- CheckTemplates(file.templates, c);
    var cas :- CheckEntries(file.cas, c);
    Some(Snapshot(users, templates, cas))
  }

  method BackupToSnapshot(file: Snapshot<string>, c: Codec) returns (r: Option<Snapshot<Bytes>>)
    ensures r == ToSnapshot(file, c)
  {
    hide CheckUser, CheckTemplate, CheckCa, CheckCert;
    var users: seq<User> := [];
    for i := 0 to |file.users|
      invariant CheckUsers(file.users[..i]) == Some(users)
    {
      assert file.users[..i + 1][..i] == file.users[..i];
      var user := CheckUser(file.users[i]);
      if user.None? {
        UsersFail(file.users, i);
        return None;
      }
      users := users + [user.value];
    }
    var templates: seq<T.Template> := [];
    for i := 0 to |file.templates|
      invariant CheckTemplates(file.templates[..i], c) == Some(templates)
    {
      assert file.templates[..i + 1][..i] == file.templates[..i];
      var template := CheckTemplate(file.templates[i], c);
      if template.None? {
        TemplatesFail(file.templates, i, c);
        return None;
      }
      templates := templates + [template.value];
    }
    var cas: seq<CaEntry<Bytes>> := [];
    for i := 0 to |file.cas|
      invariant CheckEntries(file.cas[..i], c) == Some(cas)
    {
      assert file.cas[..i + 1][..i] == file.cas[..i];
      var entry := ReadEntry(file.cas[i], c);
      if entry.None? {
        EntriesFail(file.cas, i, c);
        return None;
      }
      cas := cas + [entry.value];
    }
    assert file.users[..|file.users|] == file.users;
    assert file.templates[..|file.templates|] == file.templates;
    assert file.cas[..|file.cas|] == file.cas;
    return Some(Snapshot(users, templates, cas));
  }

  method ReadEntry(e: CaEntry<string>, c: Codec) returns (r: Option<CaEntry<Bytes>>)
    ensures r == CheckEntry(e, c)
  {
    hide CheckCa, CheckCert;
    var ca := CheckCa(e.ca, c);
    if ca.None? {
      return None;
    }
    var certs: seq<CertRow<List, Bytes>> := [];
    for i := 0 to |e.certs|
      invariant CheckCerts(e.ca.meta.id, e.certs[..i], c) == Some(certs)
    {
      assert e.certs[..i + 1][..i] == e.certs[..i];
      var cert := CheckCert(e.ca.meta.id, e.certs[i], c);
      if cert.None? {
        CertsFail(e.ca.meta.id, e.certs, i, c);
        return None;
      }
      certs := certs + [cert.value];
    }
    assert e.certs[..|e.certs|] == e.certs;
    return Some(CaEntry(ca.value, certs));
  }

  lemma {:induction false} UsersFail(users: seq<User>, i: nat)
    requires i < |users| && CheckUser(users[i]).None?
    ensures CheckUsers(users).None?
  {
    hide CheckUser;
    if i < |users| - 1 {
      UsersFail(users[..|users| - 1], i);
    }
  }

  lemma {:induction false} TemplatesFail(templates: seq<T.Template>, i: nat, c: Codec)
    requires i < |templates| && CheckTemplate(templates[i], c).None?
    ensures CheckTemplates(templates, c).None?
  {
    hide CheckTemplate;
    if i < |templates| - 1 {
      TemplatesFail(templates[..|templates| - 1], i, c);
    }
  }

  lemma {:induction false} CertsFail(caId: string, certs: seq<CertRow<List, string>>, i: nat, c: Codec)
    requires i < |certs| && CheckCert(caId, certs[i], c).None?
    ensures CheckCerts(caId, certs, c).None?
  {
    hide CheckCert;
    if i < |certs| - 1 {
      CertsFail(caId, certs[..|certs| - 1], i, c);
    }
  }

  lemma {:induction false} EntriesFail(cas: seq<CaEntry<string>>, i: nat, c: Codec)
    requires i < |cas| && CheckEntry(cas[i], c).None?
    ensures CheckEntries(cas, c).None?
  {
    hide CheckEntry;
    if i < |cas| - 1 {
      EntriesFail(cas[..|cas| - 1], i, c);
    }
  }

  // ----- the restore transaction -----

  /** Zero timestamps, of older backups, become "now" and the creation time. */
  function Created(createdAt: int, now: int): int {
    if createdAt == 0 then now else createdAt
  }

  function Updated(createdAt: int, updatedAt: int, now: int): int {
    if updatedAt == 0 then Created(createdAt, now) else updatedAt
  }

  function RestoredUser(u: User, now: int): User {
    u.(createdAt := Created(u.createdAt, now))
  }

  function RestoredCa(ca: CaRow<Bytes>, now: int): StoredCa {
    StoredCa(ca.(createdAt := Created(ca.createdAt, now), updatedAt := Updated(ca.createdAt, ca.updatedAt, now)), [])
  }

  function WithColumns(m: CertMeta<List>): CertMeta<string> {
    CertMeta(m.id, m.caId, m.commonName, m.countryCode, m.state, m.city, m.organization, m.organizationUnit, m.subject,
             m.issueTime, m.validDays, JoinList(m.dns), JoinList(m.ips), m.keyProfile, m.digestAlgorithm, m.revokedAt,
             m.revocationReason)
  }

  function RestoredCert(c: CertRow<List, Bytes>, now: int): StoredCert {
    CertRow(WithColumns(c.meta), c.secrets, c.deleted, Created(c.createdAt, now), Updated(c.createdAt, c.updatedAt, now))
  }

  predicate UsernameUsed(users: map<string, User>, username: string) {
    exists id :: id in users && users[id].username == username
  }

  function AddUser(db: Db, u: User, now: int): Option<Db> {
    if u.id in db.users || UsernameUsed(db.users, u.username) then None
    else Some(db.(users := db.users[u.id := RestoredUser(u, now)]))
  }

  function AddTemplate(db: Db, t: T.Template): Option<Db> {
    if t.id in db.templates || T.NameTaken(db.templates, t.name, t.id) then None
    else Some(db.(templates := db.templates[t.id := t]))
  }

  function AddCa(db: Db, ca: CaRow<Bytes>, now: int): Option<Db> {
    if ca.meta.id in db.cas then None else Some(db.(cas := db.cas[ca.meta.id := RestoredCa(ca, now)]))
  }

  function AddCert(db: Db, caId: string, cert: CertRow<List, Bytes>, now: int): Option<Db> {
    if cert.meta.caId != caId || cert.meta.id in db.certs then None
    else Some(db.(certs := db.certs[cert.meta.id := RestoredCert(cert, now)]))
  }

  function AddUsers(db: Db, users: seq<User>, now: int): Option<Db> {
    if users == [] then Some(db)
    else
      var before :- AddUsers(db, users[..|users| - 1], now);
      AddUser(before, users[|users| - 1], now)
  }

  function AddTemplates(db: Db, templates: seq<T.Template>): Option<Db> {
    if templates == [] then Some(db)
    else
      var before :- AddTemplates(db, templates[..|templates| - 1]);
      AddTemplate(before, templates[|templates| - 1])
  }

  function AddCerts(db: Db, caId: string, certs: seq<CertRow<List, Bytes>>, now: int): Option<Db> {
    if certs == [] then Some(db)
    else
      var before :- AddCerts(db, caId, certs[..|certs| - 1], now);
      AddCert(before, caId, certs[|certs| - 1], now)
  }

  function AddEntry(db: Db, e: CaEntry<Bytes>, now: int): Option<Db> {
    var withCa :- AddCa(db, e.ca, now);
    AddCerts(withCa, e.ca.meta.id, e.certs, now)
  }

  function AddEntries(db: Db, cas: seq<CaEntry<Bytes>>, now: int): Option<Db> {
    if cas == [] then Some(db)
    else
      var before :- AddEntries(db, cas[..|cas| - 1], now);
      AddEntry(before, cas[|cas| - 1], now)
  }

  const EMPTY := Db(map[], map[], map[], map[])

  function Restore(db: Db, snapshot: Snapshot<Bytes>, now: int): Option<Db> {
    if db != EMPTY then None
    else
      var withUsers :- AddUsers(db, snapshot.users, now);
      var withTemplates :- AddTemplates(withUsers, snapshot.templates);
      AddEntries(withTemplates, snapshot.cas, now)
  }

  class Store {
    var db: Db

    /** `restore_backup`: all rows in one transaction, or none. */
    method RestoreBackup(snapshot: Snapshot<Bytes>, now: int) returns (ok: bool)
      modifies this
      ensures ok <==> Restore(old(db), snapshot, now).Some?
      ensures ok ==> old(db) == Db(map[], map[], map[], map[])
      ensures db == if ok then Restore(old(db), snapshot, now).value else old(db)
    {
      hide AddUser, AddTemplate, AddEntry;
      if db != EMPTY {
        return false;
      }
      var tx := db;
      for i := 0 to |snapshot.users|
        invariant db == old(db) && AddUsers(db, snapshot.users[..i], now) == Some(tx)
      {
        assert snapshot.users[..i + 1][..i] == snapshot.users[..i];
        var added := AddUser(tx, snapshot.users[i], now);
        if added.None? {
          UserRefused(db, snapshot.users, i, now);
          return false;
        }
        tx := added.value;
      }
      ghost var withUsers := tx;
      assert snapshot.users[..|snapshot.users|] == snapshot.users;
      for i := 0 to |snapshot.templates|
        invariant db == old(db) && AddTemplates(withUsers, snapshot.templates[..i]) == Some(tx)
      {
        assert snapshot.templates[..i + 1][..i] == snapshot.templates[..i];
        var added := AddTemplate(tx, snapshot.templates[i]);
        if added.None? {
          TemplateRefused(withUsers, snapshot.templates, i);
          return false;
        }
        tx := added.value;
      }
      ghost var withTemplates := tx;
      assert snapshot.templates[..|snapshot.templates|] == snapshot.templates;
      for i := 0 to |snapshot.cas|
        invariant db == old(db) && AddEntries(withTemplates, snapshot.cas[..i], now) == Some(tx)
      {
        assert snapshot.cas[..i + 1][..i] == snapshot.cas[..i];
        var added := InsertEntry(tx, snapshot.cas[i], now);
        if added.None? {
          EntryRefused(withTemplates, snapshot.cas, i, now);
          return false;
        }
        tx := added.value;
      }
      assert snapshot.cas[..|snapshot.cas|] == snapshot.cas;
      db := tx;
      return true;
    }

    static method InsertEntry(tx: Db, e: CaEntry<Bytes>, now: int) returns (r: Option<Db>)
      ensures r == AddEntry(tx, e, now)
    {
      hide AddCa, AddCert;
      r := AddCa(tx, e.ca, now);
      if r.None? {
        return None;
      }
      ghost var withCa := r.value;
      for i := 0 to |e.certs|
        invariant r.Some? && AddCerts(withCa, e.ca.meta.id, e.certs[..i], now) == r
      {
        assert e.certs[..i + 1][..i] == e.certs[..i];
        r := AddCert(r.value, e.ca.meta.id, e.certs[i], now);
        if r.None? {
          CertRefused(withCa, e.ca.meta.id, e.certs, i, now);
          return None;
        }
      }
      assert e.certs[..|e.certs|] == e.certs;
    }
  }

  lemma {:induction false} UserRefused(db: Db, users: seq<User>, i: nat, now: int)
    requires i < |users| && AddUsers(db, users[..i + 1], now).None?
    ensures AddUsers(db, users, now).None?
    decreases |users|
  {
    hide AddUser;
    if i < |users| - 1 {
      assert users[..|users| - 1][..i + 1] == users[..i + 1];
      UserRefused(db, users[..|users| - 1], i, now);
    } else {
      assert users[..i + 1] == users;
    }
  }

  lemma {:induction false} TemplateRefused(db: Db, templates: seq<T.Template>, i: nat)
    requires i < |templates| && AddTemplates(db, templates[..i + 1]).None?
    ensures AddTemplates(db, templates).None?
    decreases |templates|
  {
    hide AddTemplate;
    if i < |templates| - 1 {
      assert templates[..|templates| - 1][..i + 1] == templates[..i + 1];
      TemplateRefused(db, templates[..|templates| - 1], i);
    } else {
      assert templates[..i + 1] == templates;
    }
  }

  lemma {:induction false} CertRefused(db: Db, caId: string, certs: seq<CertRow<List, Bytes>>, i: nat, now: int)
    requires i < |certs| && AddCerts(db, caId, certs[..i + 1], now).None?
    ensures AddCerts(db, caId, certs, now).None?
    decreases |certs|
  {
    hide AddCert;
    if i < |certs| - 1 {
      assert certs[..|certs| - 1][..i + 1] == certs[..i + 1];
      CertRefused(db, caId, certs[..|certs| - 1], i, now);
    } else {
      assert certs[..i + 1] == certs;
    }
  }

  lemma {:induction false} EntryRefused(db: Db, cas: seq<CaEntry<Bytes>>, i: nat, now: int)
    requires i < |cas| && AddEntries(db, cas[..i + 1], now).None?
    ensures AddEntries(db, cas, now).None?
    decreases |cas|
  {
    hide AddEntry;
    if i < |cas| - 1 {
      assert cas[..|cas| - 1][..i + 1] == cas[..i + 1];
      EntryRefused(db, cas[..|cas| - 1], i, now);
    } else {
      assert cas[..i + 1] == cas;
    }
  }

  // ----- the snapshot of a database -----

  predicate TextLt(a: string, b: string) {
    if a == "" then b != ""
    else if b == "" then false
    else a[0] < b[0] || (a[0] == b[0] && TextLt(a[1..], b[1..]))
  }

  lemma {:induction false} TextLtAsymmetric(a: string, b: string)
    requires TextLt(a, b)
    ensures !TextLt(b, a)
  {
    if a != "" && a[0] == b[0] {
      TextLtAsymmetric(a[1..], b[1..]);
    }
  }

  predicate Before(createdAt: int, id: string, createdAt': int, id': string) {
    createdAt < createdAt' || (createdAt == createdAt' && TextLt(id, id'))
  }

  /** Columns become lists. */
  function Read(c: StoredCert): CertRow<List, Bytes> {
    var m := c.meta;
    CertRow(CertMeta(m.id, m.caId, m.commonName, m.countryCode, m.state, m.city, m.organization, m.organizationUnit,
                     m.subject, m.issueTime, m.validDays, SplitList(m.dns), SplitList(m.ips), m.keyProfile,
                     m.digestAlgorithm, m.revokedAt, m.revocationReason),
            c.secrets, c.deleted, c.createdAt, c.updatedAt)
  }

  ghost predicate UsersOf(users: map<string, User>, list: seq<User>) {
    && (forall i, j :: 0 <= i < j < |list| ==> TextLt(list[i].username, list[j].username))
    && (forall u :: u in list <==> u.id in users && users[u.id] == u)
  }

  ghost predicate TemplatesOf(templates: map<string, T.Template>, list: seq<T.Template>) {
    && (forall i, j :: 0 <= i < j < |list| ==> TextLt(Lower(list[i].name), Lower(list[j].name)))
    && (forall t :: t in list <==> t.id in templates && templates[t.id] == t)
  }

  ghost predicate CertsOf(certs: map<string, StoredCert>, caId: string, list: seq<CertRow<List, Bytes>>) {
    && (forall i, j :: 0 <= i < j < |list| ==>
          Before(list[i].createdAt, list[i].meta.id, list[j].createdAt, list[j].meta.id))
    && (forall c :: c in list <==>
          c.meta.id in certs && certs[c.meta.id].meta.caId == caId && Read(certs[c.meta.id]) == c)
  }

  ghost predicate EntriesOf(db: Db, list: seq<CaEntry<Bytes>>) {
    && (forall i, j :: 0 <= i < j < |list| ==>
          Before(list[i].ca.createdAt, list[i].ca.meta.id, list[j].ca.createdAt, list[j].ca.meta.id))
    && (forall e :: e in list <==>
          e.ca.meta.id in db.cas && db.cas[e.ca.meta.id].row == e.ca && CertsOf(db.certs, e.ca.meta.id, e.certs))
    && (forall k :: k in db.cas ==> exists i :: 0 <= i < |list| && list[i].ca.meta.id == k)
  }

  /** `backup_snapshot`, with each query's result described by what it contains and how it is ordered. */
  ghost predicate SnapshotOf(db: Db, s: Snapshot<Bytes>) {
    UsersOf(db.users, s.users) && TemplatesOf(db.templates, s.templates) && EntriesOf(db, s.cas)
  }

  lemma {:induction false} SortedIsUnique<X(!new)>(a: seq<X>, b: seq<X>, lt: (X, X) -> bool)
    requires forall x, y :: lt(x, y) ==> !lt(y, x)
    requires forall i, j :: 0 <= i < j < |a| ==> lt(a[i], a[j])
    requires forall i, j :: 0 <= i < j < |b| ==> lt(b[i], b[j])
    requires forall x :: x in a <==> x in b
    ensures a == b
  {
    assert (a == [] || a[0] in a) && (b == [] || b[0] in b);
    if a != [] {
      var i :| 0 <= i < |b| && b[i] == a[0];
      var j :| 0 <= j < |a| && a[j] == b[0];
      assert a[0] == b[0];
      forall x ensures x in a[1..] <==> x in b[1..] {
        InTail(a, x, lt);
        InTail(b, x, lt);
      }
      SortedIsUnique(a[1..], b[1..], lt);
      assert a == [a[0]] + a[1..] && b == [b[0]] + b[1..];
    }
  }

  lemma InTail<X>(a: seq<X>, x: X, lt: (X, X) -> bool)
    requires a != [] && !lt(a[0], a[0])
    requires forall i, j :: 0 <= i < j < |a| ==> lt(a[i], a[j])
    ensures x in a[1..] <==> x in a && x != a[0]
  {
    if x in a[1..] {
      var i :| 0 <= i < |a[1..]| && a[1..][i] == x;
      assert a[i + 1] == x;
    }
    if x in a && x != a[0] {
      var i :| 0 <= i < |a| && a[i] == x;
      assert a[1..][i - 1] == x;
    }
  }

  /** The order of the queries leaves only one snapshot of a database. */
  lemma SnapshotIsUnique(db: Db, s: Snapshot<Bytes>, t: Snapshot<Bytes>)
    requires SnapshotOf(db, s) && SnapshotOf(db, t)
    ensures s == t
  {
    hide TextLt, Lower, Read, CertsOf;
    forall a, b | TextLt(a, b) ensures !TextLt(b, a) {
      TextLtAsymmetric(a, b);
    }
    SortedIsUnique(s.users, t.users, (x: User, y: User) => TextLt(x.username, y.username));
    SortedIsUnique(s.templates, t.templates, (x: T.Template, y: T.Template) => TextLt(Lower(x.name), Lower(y.name)));
    SortedIsUnique(s.cas, t.cas, (x: CaEntry<Bytes>, y: CaEntry<Bytes>) =>
      Before(x.ca.createdAt, x.ca.meta.id, y.ca.createdAt, y.ca.meta.id));
  }

  // every database has a snapshot

  lemma {:induction false} TextLtTotal(a: string, b: string)
    ensures a == b || TextLt(a, b) || TextLt(b, a)
  {
    if a != "" && b != "" {
      TextLtTotal(a[1..], b[1..]);
      assert a == [a[0]] + a[1..] && b == [b[0]] + b[1..];
    }
  }

  lemma {:induction false} TextLtTransitive(a: string, b: string, c: string)
    requires TextLt(a, b) && TextLt(b, c)
    ensures TextLt(a, c)
  {
    if a != "" && b != "" && c != "" && a[0] == b[0] == c[0] {
      TextLtTransitive(a[1..], b[1..], c[1..]);
    }
  }

  ghost predicate SortedBy<X(!new)>(s: seq<X>, lt: (X, X) -> bool) {
    forall i, j :: 0 <= i < j < |s| ==> lt(s[i], s[j])
  }

  ghost predicate Transitive<X(!new)>(lt: (X, X) -> bool) {
    forall x, y, z :: lt(x, y) && lt(y, z) ==> lt(x, z)
  }

  /** Any two different elements are ordered one way or the other. */
  ghost predicate TotalOn<X(!new)>(items: set<X>, lt: (X, X) -> bool) {
    forall x, y :: x in items && y in items && x != y ==> lt(x, y) || lt(y, x)
  }

  lemma {:induction false} InsertSorted<X(!new)>(s: seq<X>, x: X, lt: (X, X) -> bool) returns (r: seq<X>)
    requires SortedBy(s, lt) && Transitive(lt) && forall y :: y in s ==> lt(x, y) || lt(y, x)
    ensures SortedBy(r, lt) && forall y :: y in r <==> y == x || y in s
  {
    if s == [] {
      r := [x];
    } else if lt(x, s[0]) {
      r := [x] + s;
      assert forall j :: 0 < j < |s| ==> lt(x, s[j]);
    } else {
      assert s[0] in s;
      var (head, tail) := (s[0], s[1..]);
      assert s == [head] + tail;
      assert forall j :: 0 <= j < |tail| ==> tail[j] == s[j + 1];
      var more := InsertSorted(tail, x, lt);
      r := [head] + more;
      forall j | 0 <= j < |more| ensures lt(head, more[j]) {
        assert more[j] in more;
      }
    }
  }

  lemma {:induction false} SortSet<X(!new)>(items: set<X>, lt: (X, X) -> bool) returns (r: seq<X>)
    requires Transitive(lt) && TotalOn(items, lt)
    ensures SortedBy(r, lt) && forall x :: x in r <==> x in items
    decreases |items|
  {
    if items == {} {
      r := [];
    } else {
      var x :| x in items;
      var rest := SortSet(items - {x}, lt);
      r := InsertSorted(rest, x, lt);
    }
  }

  lemma UsersExist(db: Db) returns (list: seq<User>)
    requires DbOk(db)
    ensures UsersOf(db.users, list)
  {
    hide TextLt;
    var lt := (x: User, y: User) => TextLt(x.username, y.username);
    forall x: User, y: User, z: User | lt(x, y) && lt(y, z) ensures lt(x, z) {
      TextLtTransitive(x.username, y.username, z.username);
    }
    var items := set k | k in db.users :: db.users[k];
    forall x, y | x in items && y in items && x != y ensures lt(x, y) || lt(y, x) {
      TextLtTotal(x.username, y.username);
    }
    list := SortSet(items, lt);
    forall i, j | 0 <= i < j < |list| ensures TextLt(list[i].username, list[j].username) {
      assert lt(list[i], list[j]);
    }
  }

  lemma TemplatesExist(db: Db) returns (list: seq<T.Template>)
    requires DbOk(db)
    ensures TemplatesOf(db.templates, list)
  {
    hide TextLt, Lower;
    var lt := (x: T.Template, y: T.Template) => TextLt(Lower(x.name), Lower(y.name));
    forall x: T.Template, y: T.Template, z: T.Template | lt(x, y) && lt(y, z) ensures lt(x, z) {
      TextLtTransitive(Lower(x.name), Lower(y.name), Lower(z.name));
    }
    var items := set k | k in db.templates :: db.templates[k];
    forall x, y | x in items && y in items && x != y ensures lt(x, y) || lt(y, x) {
      TextLtTotal(Lower(x.name), Lower(y.name));
    }
    list := SortSet(items, lt);
    forall i, j | 0 <= i < j < |list| ensures TextLt(Lower(list[i].name), Lower(list[j].name)) {
      assert lt(list[i], list[j]);
    }
  }

  lemma BeforeTransitive(t1: int, id1: string, t2: int, id2: string, t3: int, id3: string)
    requires Before(t1, id1, t2, id2) && Before(t2, id2, t3, id3)
    ensures Before(t1, id1, t3, id3)
  {
    if t1 == t2 == t3 {
      TextLtTransitive(id1, id2, id3);
    }
  }

  lemma CertsExist(db: Db, caId: string) returns (list: seq<CertRow<List, Bytes>>)
    requires DbOk(db)
    ensures CertsOf(db.certs, caId, list)
  {
    hide TextLt, Read, Before;
    var lt := (x: CertRow<List, Bytes>, y: CertRow<List, Bytes>) =>
      Before(x.createdAt, x.meta.id, y.createdAt, y.meta.id);
    forall x: CertRow<List, Bytes>, y: CertRow<List, Bytes>, z: CertRow<List, Bytes> | lt(x, y) && lt(y, z)
      ensures lt(x, z)
    {
      BeforeTransitive(x.createdAt, x.meta.id, y.createdAt, y.meta.id, z.createdAt, z.meta.id);
    }
    var items := set k | k in db.certs && db.certs[k].meta.caId == caId :: Read(db.certs[k]);
    forall k | k in db.certs ensures Read(db.certs[k]).meta.id == k {
      ReadKeepsCa(db.certs[k]);
    }
    forall x, y | x in items && y in items && x != y ensures lt(x, y) || lt(y, x) {
      BeforeTotal(x.createdAt, x.meta.id, y.createdAt, y.meta.id);
    }
    list := SortSet(items, lt);
    forall i, j | 0 <= i < j < |list|
      ensures Before(list[i].createdAt, list[i].meta.id, list[j].createdAt, list[j].meta.id)
    {
      assert lt(list[i], list[j]);
    }
  }

  lemma BeforeTotal(t1: int, id1: string, t2: int, id2: string)
    requires id1 != id2
    ensures Before(t1, id1, t2, id2) || Before(t2, id2, t1, id1)
  {
    TextLtTotal(id1, id2);
  }

  lemma ReadKeepsCa(cert: StoredCert)
    ensures Read(cert).meta.id == cert.meta.id && Read(cert).meta.caId == cert.meta.caId
  {
  }

  lemma CertsAreUnique(certs: map<string, StoredCert>, caId: string, a: seq<CertRow<List, Bytes>>,
                       b: seq<CertRow<List, Bytes>>)
    requires CertsOf(certs, caId, a) && CertsOf(certs, caId, b)
    ensures a == b
  {
    hide TextLt, Read;
    forall x, y | TextLt(x, y) ensures !TextLt(y, x) {
      TextLtAsymmetric(x, y);
    }
    SortedIsUnique(a, b, (x: CertRow<List, Bytes>, y: CertRow<List, Bytes>) =>
      Before(x.createdAt, x.meta.id, y.createdAt, y.meta.id));
  }

  lemma CasExist(db: Db) returns (rows: seq<CaRow<Bytes>>)
    requires DbOk(db)
    ensures forall i, j :: 0 <= i < j < |rows| ==>
      Before(rows[i].createdAt, rows[i].meta.id, rows[j].createdAt, rows[j].meta.id)
    ensures forall ca :: ca in rows <==> ca.meta.id in db.cas && db.cas[ca.meta.id].row == ca
  {
    hide TextLt, Before;
    var lt := (x: CaRow<Bytes>, y: CaRow<Bytes>) => Before(x.createdAt, x.meta.id, y.createdAt, y.meta.id);
    forall x: CaRow<Bytes>, y: CaRow<Bytes>, z: CaRow<Bytes> | lt(x, y) && lt(y, z) ensures lt(x, z) {
      BeforeTransitive(x.createdAt, x.meta.id, y.createdAt, y.meta.id, z.createdAt, z.meta.id);
    }
    var items := set k | k in db.cas :: db.cas[k].row;
    forall x, y | x in items && y in items && x != y ensures lt(x, y) || lt(y, x) {
      BeforeTotal(x.createdAt, x.meta.id, y.createdAt, y.meta.id);
    }
    rows := SortSet(items, lt);
    forall i, j | 0 <= i < j < |rows|
      ensures Before(rows[i].createdAt, rows[i].meta.id, rows[j].createdAt, rows[j].meta.id)
    {
      assert lt(rows[i], rows[j]);
    }
  }

  lemma {:induction false} WithCerts(db: Db, rows: seq<CaRow<Bytes>>) returns (list: seq<CaEntry<Bytes>>)
    requires DbOk(db)
    ensures |list| == |rows|
    ensures forall i :: 0 <= i < |rows| ==> list[i].ca == rows[i] && CertsOf(db.certs, rows[i].meta.id, list[i].certs)
  {
    hide DbOk, CertsOf;
    list := [];
    if rows != [] {
      var init := WithCerts(db, rows[..|rows| - 1]);
      var certs := CertsExist(db, rows[|rows| - 1].meta.id);
      list := init + [CaEntry(rows[|rows| - 1], certs)];
    }
  }

  lemma EntriesExist(db: Db) returns (list: seq<CaEntry<Bytes>>)
    requires DbOk(db)
    ensures EntriesOf(db, list)
  {
    var rows := CasExist(db);
    list := WithCerts(db, rows);
    hide TextLt, Before, CertsOf;
    forall i, j | 0 <= i < j < |list|
      ensures Before(list[i].ca.createdAt, list[i].ca.meta.id, list[j].ca.createdAt, list[j].ca.meta.id)
    {
      assert Before(rows[i].createdAt, rows[i].meta.id, rows[j].createdAt, rows[j].meta.id);
    }
    forall e: CaEntry<Bytes>
      ensures e in list <==>
              e.ca.meta.id in db.cas && db.cas[e.ca.meta.id].row == e.ca && CertsOf(db.certs, e.ca.meta.id, e.certs)
    {
      EntryOfRows(db, rows, list, e);
    }
    forall k | k in db.cas ensures exists i :: 0 <= i < |list| && list[i].ca.meta.id == k {
      assert db.cas[k].row in rows;
      var i :| 0 <= i < |rows| && rows[i] == db.cas[k].row;
      assert list[i].ca.meta.id == k;
    }
  }

  lemma EntryOfRows(db: Db, rows: seq<CaRow<Bytes>>, list: seq<CaEntry<Bytes>>, e: CaEntry<Bytes>)
    requires forall ca :: ca in rows <==> ca.meta.id in db.cas && db.cas[ca.meta.id].row == ca
    requires |list| == |rows|
    requires forall i :: 0 <= i < |rows| ==> list[i].ca == rows[i] && CertsOf(db.certs, rows[i].meta.id, list[i].certs)
    ensures e in list <==>
            e.ca.meta.id in db.cas && db.cas[e.ca.meta.id].row == e.ca && CertsOf(db.certs, e.ca.meta.id, e.certs)
  {
    hide CertsOf;
    if e in list {
      var i :| 0 <= i < |list| && list[i] == e;
      assert rows[i] in rows;
    }
    if e.ca in rows && CertsOf(db.certs, e.ca.meta.id, e.certs) {
      var i :| 0 <= i < |rows| && rows[i] == e.ca;
      CertsAreUnique(db.certs, e.ca.meta.id, e.certs, list[i].certs);
      assert list[i] == e;
    }
  }

  /** Every database has a snapshot, and by the order of the queries only one. */
  lemma SnapshotExists(db: Db) returns (s: Snapshot<Bytes>)
    requires DbOk(db)
    ensures SnapshotOf(db, s) && forall t :: SnapshotOf(db, t) ==> t == s
  {
    hide DbOk, UsersOf, TemplatesOf, EntriesOf;
    var users := UsersExist(db);
    var templates := TemplatesExist(db);
    var cas := EntriesExist(db);
    s := Snapshot(users, templates, cas);
    forall t | SnapshotOf(db, t) ensures t == s {
      SnapshotIsUnique(db, s, t);
    }
  }

  // ----- the file -----

  function EncodeCa(ca: CaRow<Bytes>, c: Codec): CaRow<string> {
    var s := ca.secrets;
    CaRow(ca.meta,
          CaSecrets(c.encode(s.certPem), c.encode(s.keyPem), c.encode(s.pkcs12), c.encode(s.password),
                    c.encode(s.indexTxt), c.encode(s.serialTxt), c.encode(s.crlDer), s.crlUpdatedAt,
                    c.encode(s.crlnumberTxt)),
          ca.deleted, ca.createdAt, ca.updatedAt)
  }

  function EncodeCert(cert: CertRow<List, Bytes>, c: Codec): CertRow<List, string> {
    var s := cert.secrets;
    CertRow(cert.meta,
            CertSecrets(c.encode(s.certPem), c.encode(s.keyPem), c.encode(s.csrPem), c.encode(s.pkcs12),
                        c.encode(s.password), c.encode(s.bundleZip)),
            cert.deleted, cert.createdAt, cert.updatedAt)
  }

  function EncodeCerts(certs: seq<CertRow<List, Bytes>>, c: Codec): (r: seq<CertRow<List, string>>)
    ensures |r| == |certs| && forall i :: 0 <= i < |certs| ==> r[i] == EncodeCert(certs[i], c)
  {
    seq(|certs|, i requires 0 <= i < |certs| => EncodeCert(certs[i], c))
  }

  function EncodeEntries(cas: seq<CaEntry<Bytes>>, c: Codec): (r: seq<CaEntry<string>>)
    ensures |r| == |cas|
    ensures forall i :: 0 <= i < |cas| ==> r[i] == CaEntry(EncodeCa(cas[i].ca, c), EncodeCerts(cas[i].certs, c))
  {
    seq(|cas|, i requires 0 <= i < |cas| => CaEntry(EncodeCa(cas[i].ca, c), EncodeCerts(cas[i].certs, c)))
  }

  function ToFile(s: Snapshot<Bytes>, c: Codec): Snapshot<string> {
    Snapshot(s.users, s.templates, EncodeEntries(s.cas, c))
  }

  // ----- rows that come back as they were -----

  predicate UserKept(u: User) {
    IsRole(u.role) && Trim(u.username) != "" && NoControl(u.username) && u.createdAt != 0
  }

  predicate TemplateKept(t: T.Template, c: Codec) {
    && ValidId(t.id) && (t.scopeText == "both" || t.scopeText == "ca" || t.scopeText == "certificate")
    && t.name != "" && Trim(t.name) == t.name && NoControl(t.name)
    && NormalValues(t.values, c.upper) == t.values && ValidValues(t.values)
  }

  predicate CaKept(ca: CaRow<Bytes>, c: Codec) {
    ValidId(ca.meta.id) && CaSecretsOk(ca.secrets, c) && ca.createdAt != 0 && ca.updatedAt != 0
  }

  predicate CertKept(cert: StoredCert, c: Codec) {
    && ValidId(cert.meta.id) && NormalList(cert.meta.dns) && NormalList(cert.meta.ips)
    && ValidEntries(SplitList(cert.meta.dns)) && ValidEntries(SplitList(cert.meta.ips))
    && (cert.meta.revocationReason.Some? ==> KnownReason(cert.meta.revocationReason.value))
    && CertSecretsOk(cert.secrets, c) && cert.createdAt != 0 && cert.updatedAt != 0
  }

  lemma RoleIsNormal(role: string)
    ensures NormalRole(role) == Some(role) <==> IsRole(role)
  {
    if IsRole(role) {
      AlreadyTrimmed(role);
      assert Lower(role) == role;
    }
  }

  lemma UserThrough(u: User, now: int)
    requires now != 0
    ensures CheckUser(u).Some? && RestoredUser(CheckUser(u).value, now) == u <==> UserKept(u)
    ensures UserKept(u) ==> CheckUser(u) == Some(u)
  {
    hide Trim, Lower, NormalRole, NoControl;
    RoleIsNormal(u.role);
    NormalRoleIsRole(u.role);
  }

  lemma NormalRoleIsRole(role: string)
    ensures NormalRole(role).Some? ==> IsRole(NormalRole(role).value)
  {
  }

  lemma TemplateThrough(t: T.Template, c: Codec)
    ensures CheckTemplate(t, c) == Some(t) <==> TemplateKept(t, c)
  {
    hide Trim, NormalValues, ValidValues, T.ParseScope, ValidId, NoControl;
    T.ScopeNameParses(T.Both);
    T.ScopeNameParses(T.Ca);
    T.ScopeNameParses(T.Certificate);
  }

  lemma CaThrough(ca: CaRow<Bytes>, c: Codec, now: int)
    requires Lawful(c) && now != 0
    ensures var checked := CheckCa(EncodeCa(ca, c), c);
      && (checked.Some? && RestoredCa(checked.value, now) == StoredCa(ca, []) <==> CaKept(ca, c))
      && (CaKept(ca, c) ==> checked == Some(ca))
  {
    hide ValidId, CaSecretsOk;
  }

  lemma CertThrough(cert: StoredCert, c: Codec, now: int)
    requires Lawful(c) && now != 0
    ensures var checked := CheckCert(cert.meta.caId, EncodeCert(Read(cert), c), c);
      && (checked.Some? && RestoredCert(checked.value, now) == cert <==> CertKept(cert, c))
      && (CertKept(cert, c) ==> checked == Some(Read(cert)))
  {
    hide ValidId, CertSecretsOk, JoinList, SplitList, NormalList, KnownReason, ValidEntries;
    ListRoundTrip(cert.meta.dns);
    ListRoundTrip(cert.meta.ips);
    assert DecodeCertSecrets(EncodeCert(Read(cert), c).secrets, c) == Some(cert.secrets);
  }

  // ----- the way there and back -----

  /** The database without what a backup leaves out. */
  function Bare(db: Db): Db {
    db.(cas := map k | k in db.cas :: StoredCa(db.cas[k].row, []))
  }

  ghost predicate AllKept(db: Db, c: Codec) {
    && (forall k :: k in db.users ==> UserKept(db.users[k]))
    && (forall k :: k in db.templates ==> TemplateKept(db.templates[k], c))
    && (forall k :: k in db.cas ==> CaKept(db.cas[k].row, c))
    && (forall k :: k in db.certs ==> CertKept(db.certs[k], c))
  }

  /** The file read back and restored into an empty database. */
  function RestoreFile(file: Snapshot<string>, c: Codec, now: int): Option<Db> {
    var snapshot :- ToSnapshot(file, c);
    Restore(EMPTY, snapshot, now)
  }

  // kept rows pass the checks unchanged

  lemma {:induction false} KeptUsers(users: seq<User>, now: int)
    requires now != 0 && forall i :: 0 <= i < |users| ==> UserKept(users[i])
    ensures CheckUsers(users) == Some(users)
  {
    hide CheckUser, UserKept;
    if users != [] {
      KeptUsers(users[..|users| - 1], now);
      UserThrough(users[|users| - 1], now);
      assert users == users[..|users| - 1] + [users[|users| - 1]];
    }
  }

  lemma {:induction false} KeptTemplates(templates: seq<T.Template>, c: Codec)
    requires forall i :: 0 <= i < |templates| ==> TemplateKept(templates[i], c)
    ensures CheckTemplates(templates, c) == Some(templates)
  {
    hide CheckTemplate, TemplateKept;
    if templates != [] {
      KeptTemplates(templates[..|templates| - 1], c);
      TemplateThrough(templates[|templates| - 1], c);
      assert templates == templates[..|templates| - 1] + [templates[|templates| - 1]];
    }
  }

  lemma {:induction false} KeptCerts(certs: map<string, StoredCert>, caId: string, list: seq<CertRow<List, Bytes>>,
                                     c: Codec, now: int)
    requires Lawful(c) && now != 0
    requires forall k :: k in certs ==> CertKept(certs[k], c)
    requires forall i :: 0 <= i < |list| ==>
      list[i].meta.id in certs && certs[list[i].meta.id].meta.caId == caId && Read(certs[list[i].meta.id]) == list[i]
    ensures CheckCerts(caId, EncodeCerts(list, c), c) == Some(list)
  {
    hide CheckCert, CertKept, Read, EncodeCert;
    if list != [] {
      var (init, last) := (list[..|list| - 1], list[|list| - 1]);
      KeptCerts(certs, caId, init, c, now);
      CertThrough(certs[last.meta.id], c, now);
      assert EncodeCerts(list, c)[..|list| - 1] == EncodeCerts(init, c);
      assert list == init + [last];
    }
  }

  lemma {:induction false} KeptEntries(db: Db, list: seq<CaEntry<Bytes>>, c: Codec, now: int)
    requires Lawful(c) && now != 0 && AllKept(db, c)
    requires forall i :: 0 <= i < |list| ==>
      && list[i].ca.meta.id in db.cas && db.cas[list[i].ca.meta.id].row == list[i].ca
      && CertsOf(db.certs, list[i].ca.meta.id, list[i].certs)
    ensures CheckEntries(EncodeEntries(list, c), c) == Some(list)
  {
    hide CheckCa, CaKept, CertKept, UserKept, TemplateKept, Read, EncodeCa, EncodeCert, CheckCerts;
    if list != [] {
      var (init, last) := (list[..|list| - 1], list[|list| - 1]);
      KeptEntries(db, init, c, now);
      CaThrough(last.ca, c, now);
      EncodedCaId(last.ca, c);
      assert forall i :: 0 <= i < |last.certs| ==> last.certs[i] in last.certs;
      KeptCerts(db.certs, last.ca.meta.id, last.certs, c, now);
      assert EncodeEntries(list, c)[..|list| - 1] == EncodeEntries(init, c);
      assert list == init + [last];
    }
  }

  lemma EncodedCaId(ca: CaRow<Bytes>, c: Codec)
    ensures EncodeCa(ca, c).meta.id == ca.meta.id
  {
  }

  lemma KeptSnapshot(db: Db, s: Snapshot<Bytes>, c: Codec, now: int)
    requires SnapshotOf(db, s) && AllKept(db, c) && Lawful(c) && now != 0
    ensures ToSnapshot(ToFile(s, c), c) == Some(s)
  {
    hide UserKept, TemplateKept, CaKept, CertKept, CertsOf, CheckUsers, CheckTemplates, CheckEntries, EncodeEntries;
    assert forall i :: 0 <= i < |s.users| ==> s.users[i] in s.users;
    assert forall i :: 0 <= i < |s.templates| ==> s.templates[i] in s.templates;
    assert forall i :: 0 <= i < |s.cas| ==> s.cas[i] in s.cas;
    KeptUsers(s.users, now);
    KeptTemplates(s.templates, c);
    KeptEntries(db, s.cas, c, now);
  }

  // restoring the rows of a database gives its tables back

  function Part<V>(m: map<string, V>, ids: set<string>): map<string, V> {
    map k | k in m && k in ids :: m[k]
  }

  ghost function UserIds(list: seq<User>): set<string> {
    set i | 0 <= i < |list| :: list[i].id
  }

  lemma {:induction false} LoadUsers(db: Db, users: map<string, User>, list: seq<User>, now: int)
    requires db.users == map[] && now != 0
    requires forall a, b :: a in users && b in users && a != b ==> users[a].username != users[b].username
    requires forall i :: 0 <= i < |list| ==>
      list[i].id in users && users[list[i].id] == list[i] && list[i].createdAt != 0
    requires forall i, j :: 0 <= i < j < |list| ==> list[i].id != list[j].id
    ensures AddUsers(db, list, now) == Some(db.(users := Part(users, UserIds(list))))
  {
    hide AddUser, Part;
    if list == [] {
      PartNothing(users);
      assert UserIds([]) == {};
    } else {
      var (init, last) := (list[..|list| - 1], list[|list| - 1]);
      LoadUsers(db, users, init, now);
      assert UserIds(list) == UserIds(init) + {last.id};
      UserFits(db.(users := Part(users, UserIds(init))), users, UserIds(init), last, now);
    }
  }

  lemma PartNothing<V>(m: map<string, V>)
    ensures Part(m, {}) == map[]
  {
  }

  lemma PartMore<V>(m: map<string, V>, ids: set<string>, id: string)
    requires id in m
    ensures Part(m, ids + {id}) == Part(m, ids)[id := m[id]]
  {
  }

  lemma UserFits(db: Db, users: map<string, User>, ids: set<string>, u: User, now: int)
    requires db.users == Part(users, ids) && u.id !in ids && u.id in users && users[u.id] == u && u.createdAt != 0
    requires forall a, b :: a in users && b in users && a != b ==> users[a].username != users[b].username
    ensures AddUser(db, u, now) == Some(db.(users := Part(users, ids + {u.id})))
  {
    PartMore(users, ids, u.id);
    assert !UsernameUsed(db.users, u.username);
  }

  ghost function TemplateIds(list: seq<T.Template>): set<string> {
    set i | 0 <= i < |list| :: list[i].id
  }

  lemma {:induction false} LoadTemplates(db: Db, templates: map<string, T.Template>, list: seq<T.Template>)
    requires db.templates == map[]
    requires forall a, b :: a in templates && b in templates && a != b ==>
      Lower(templates[a].name) != Lower(templates[b].name)
    requires forall i :: 0 <= i < |list| ==> list[i].id in templates && templates[list[i].id] == list[i]
    requires forall i, j :: 0 <= i < j < |list| ==> list[i].id != list[j].id
    ensures AddTemplates(db, list) == Some(db.(templates := Part(templates, TemplateIds(list))))
  {
    hide AddTemplate, Part, Lower;
    if list == [] {
      PartNothing(templates);
      assert TemplateIds([]) == {};
    } else {
      var (init, last) := (list[..|list| - 1], list[|list| - 1]);
      LoadTemplates(db, templates, init);
      assert TemplateIds(list) == TemplateIds(init) + {last.id};
      TemplateFits(db.(templates := Part(templates, TemplateIds(init))), templates, TemplateIds(init), last);
    }
  }

  lemma TemplateFits(db: Db, templates: map<string, T.Template>, ids: set<string>, t: T.Template)
    requires db.templates == Part(templates, ids) && t.id !in ids && t.id in templates && templates[t.id] == t
    requires forall a, b :: a in templates && b in templates && a != b ==>
      Lower(templates[a].name) != Lower(templates[b].name)
    ensures AddTemplate(db, t) == Some(db.(templates := Part(templates, ids + {t.id})))
  {
    hide Lower;
    PartMore(templates, ids, t.id);
    assert !T.NameTaken(db.templates, t.name, t.id);
  }

  ghost function CertIds(list: seq<CertRow<List, Bytes>>): set<string> {
    set i | 0 <= i < |list| :: list[i].meta.id
  }

  lemma {:induction false} LoadCerts(db: Db, certs: map<string, StoredCert>, base: set<string>, caId: string,
                                     list: seq<CertRow<List, Bytes>>, now: int)
    requires db.certs == Part(certs, base) && now != 0
    requires forall i :: 0 <= i < |list| ==>
      && list[i].meta.id in certs && list[i].meta.id !in base && list[i].meta.caId == caId
      && RestoredCert(list[i], now) == certs[list[i].meta.id]
    requires forall i, j :: 0 <= i < j < |list| ==> list[i].meta.id != list[j].meta.id
    ensures AddCerts(db, caId, list, now) == Some(db.(certs := Part(certs, base + CertIds(list))))
  {
    hide RestoredCert;
    if list == [] {
      assert base + CertIds([]) == base;
    } else {
      var (init, last) := (list[..|list| - 1], list[|list| - 1]);
      LoadCerts(db, certs, base, caId, init, now);
      assert base + CertIds(list) == base + CertIds(init) + {last.meta.id};
      assert Part(certs, base + CertIds(list))
          == Part(certs, base + CertIds(init))[last.meta.id := RestoredCert(last, now)];
    }
  }

  ghost function CaIds(list: seq<CaEntry<Bytes>>): set<string> {
    set i | 0 <= i < |list| :: list[i].ca.meta.id
  }

  ghost function CertsUnder(db: Db, caIds: set<string>): set<string> {
    set k | k in db.certs && db.certs[k].meta.caId in caIds
  }

  lemma RestoredIsStored(cert: StoredCert, c: Codec, now: int)
    requires CertKept(cert, c) && Lawful(c) && now != 0
    ensures RestoredCert(Read(cert), now) == cert
  {
    hide CertKept, RestoredCert, Read;
    CertThrough(cert, c, now);
  }

  /** Distinct ids follow from the strict order of a query. */
  lemma OrderedIdsDiffer(list: seq<CertRow<List, Bytes>>, i: nat, j: nat)
    requires i < j < |list| && Before(list[i].createdAt, list[i].meta.id, list[j].createdAt, list[j].meta.id)
    requires list[i].meta.id == list[j].meta.id ==> list[i] == list[j]
    ensures list[i].meta.id != list[j].meta.id
  {
    if list[i].meta.id == list[j].meta.id {
      TextLtAsymmetric(list[i].meta.id, list[j].meta.id);
    }
  }

  lemma LoadCertsOf(start: Db, db: Db, base: set<string>, caId: string, list: seq<CertRow<List, Bytes>>, c: Codec,
                    now: int)
    requires DbOk(db) && AllKept(db, c) && Lawful(c) && now != 0
    requires CertsOf(db.certs, caId, list) && start.certs == Part(db.certs, base) && base !! CertsUnder(db, {caId})
    ensures AddCerts(start, caId, list, now) == Some(start.(certs := Part(db.certs, base + CertsUnder(db, {caId}))))
  {
    hide Read, RestoredCert, CertKept, UserKept, TemplateKept, CaKept, Before, Part, AddCerts;
    forall i | 0 <= i < |list|
      ensures list[i].meta.id in db.certs && list[i].meta.id !in base && list[i].meta.caId == caId
      ensures RestoredCert(list[i], now) == db.certs[list[i].meta.id]
    {
      assert list[i] in list;
      var id := list[i].meta.id;
      assert id in CertsUnder(db, {caId});
      RestoredIsStored(db.certs[id], c, now);
      ReadKeepsCa(db.certs[id]);
    }
    forall i, j | 0 <= i < j < |list| ensures list[i].meta.id != list[j].meta.id {
      assert list[i] in list && list[j] in list;
      OrderedIdsDiffer(list, i, j);
    }
    LoadCerts(start, db.certs, base, caId, list, now);
    assert CertIds(list) == CertsUnder(db, {caId}) by {
      forall k | k in CertsUnder(db, {caId}) ensures k in CertIds(list) {
        ReadKeepsCa(db.certs[k]);
        assert Read(db.certs[k]) in list;
      }
    }
  }

  lemma RestoredCaIsBare(db: Db, id: string, c: Codec, now: int)
    requires id in db.cas && CaKept(db.cas[id].row, c) && Lawful(c) && now != 0
    ensures RestoredCa(db.cas[id].row, now) == Bare(db).cas[id]
  {
    hide CaKept;
    CaThrough(db.cas[id].row, c, now);
  }

  lemma {:induction false} LoadEntries(start: Db, db: Db, list: seq<CaEntry<Bytes>>, c: Codec, now: int)
    requires DbOk(db) && AllKept(db, c) && Lawful(c) && now != 0 && start.cas == map[] && start.certs == map[]
    requires forall i :: 0 <= i < |list| ==>
      && list[i].ca.meta.id in db.cas && db.cas[list[i].ca.meta.id].row == list[i].ca
      && CertsOf(db.certs, list[i].ca.meta.id, list[i].certs)
    requires forall i, j :: 0 <= i < j < |list| ==> list[i].ca.meta.id != list[j].ca.meta.id
    ensures AddEntries(start, list, now)
            == Some(start.(cas := Part(Bare(db).cas, CaIds(list)), certs := Part(db.certs, CertsUnder(db, CaIds(list)))))
  {
    hide AddEntry, Part, CertsOf, AllKept, DbOk, Bare;
    if list == [] {
      PartNothing(Bare(db).cas);
      PartNothing(db.certs);
      assert CaIds([]) == {} && CertsUnder(db, {}) == {};
    } else {
      var (init, last) := (list[..|list| - 1], list[|list| - 1]);
      LoadEntries(start, db, init, c, now);
      assert CaIds(list) == CaIds(init) + {last.ca.meta.id};
      var before := AddEntries(start, init, now).value;
      LoadEntry(before, db, CaIds(init), last, c, now);
    }
  }

  lemma LoadEntry(before: Db, db: Db, ids: set<string>, e: CaEntry<Bytes>, c: Codec, now: int)
    requires DbOk(db) && AllKept(db, c) && Lawful(c) && now != 0
    requires before.cas == Part(Bare(db).cas, ids) && before.certs == Part(db.certs, CertsUnder(db, ids))
    requires e.ca.meta.id !in ids && e.ca.meta.id in db.cas && db.cas[e.ca.meta.id].row == e.ca
    requires CertsOf(db.certs, e.ca.meta.id, e.certs)
    ensures AddEntry(before, e, now)
            == Some(before.(cas := Part(Bare(db).cas, ids + {e.ca.meta.id}),
                            certs := Part(db.certs, CertsUnder(db, ids + {e.ca.meta.id}))))
  {
    hide CertsOf, CertKept, UserKept, TemplateKept, CaKept, AddCerts, RestoredCa;
    var id := e.ca.meta.id;
    RestoredCaIsBare(db, id, c, now);
    PartMore(Bare(db).cas, ids, id);
    var withCa := AddCa(before, e.ca, now).value;
    assert CertsUnder(db, ids + {id}) == CertsUnder(db, ids) + CertsUnder(db, {id});
    LoadCertsOf(withCa, db, CertsUnder(db, ids), id, e.certs, c, now);
  }

  lemma PartAll<V>(m: map<string, V>, ids: set<string>)
    requires m.Keys <= ids
    ensures Part(m, ids) == m
  {
  }

  lemma UsersLoaded(db: Db, list: seq<User>, start: Db, c: Codec, now: int)
    requires DbOk(db) && AllKept(db, c) && UsersOf(db.users, list) && start.users == map[] && now != 0
    ensures AddUsers(start, list, now) == Some(start.(users := db.users))
  {
    hide TextLt, TemplateKept, CaKept, CertKept, AddUsers, Part;
    forall i | 0 <= i < |list|
      ensures list[i].id in db.users && db.users[list[i].id] == list[i] && list[i].createdAt != 0
    {
      assert list[i] in list;
    }
    forall i, j | 0 <= i < j < |list| ensures list[i].id != list[j].id {
      assert list[i] in list && list[j] in list;
      assert TextLt(list[i].username, list[j].username);
      TextLtAsymmetric(list[i].username, list[j].username);
    }
    forall k | k in db.users ensures k in UserIds(list) {
      assert db.users[k] in list;
    }
    LoadUsers(start, db.users, list, now);
    PartAll(db.users, UserIds(list));
  }

  lemma TemplatesLoaded(db: Db, list: seq<T.Template>, start: Db)
    requires DbOk(db) && TemplatesOf(db.templates, list) && start.templates == map[]
    ensures AddTemplates(start, list) == Some(start.(templates := db.templates))
  {
    hide TextLt, AddTemplates, Part, Lower;
    forall i | 0 <= i < |list| ensures list[i].id in db.templates && db.templates[list[i].id] == list[i] {
      assert list[i] in list;
    }
    forall i, j | 0 <= i < j < |list| ensures list[i].id != list[j].id {
      assert list[i] in list && list[j] in list;
      TextLtAsymmetric(Lower(list[i].name), Lower(list[j].name));
    }
    forall k | k in db.templates ensures k in TemplateIds(list) {
      assert db.templates[k] in list;
    }
    LoadTemplates(start, db.templates, list);
    PartAll(db.templates, TemplateIds(list));
  }

  lemma EntriesLoaded(db: Db, list: seq<CaEntry<Bytes>>, start: Db, c: Codec, now: int)
    requires DbOk(db) && AllKept(db, c) && Lawful(c) && now != 0 && EntriesOf(db, list)
    requires start.cas == map[] && start.certs == map[]
    ensures AddEntries(start, list, now) == Some(start.(cas := Bare(db).cas, certs := db.certs))
  {
    hide TextLt, AddEntries, Part, CertsOf, UserKept, TemplateKept, CaKept, CertKept;
    forall i | 0 <= i < |list|
      ensures list[i].ca.meta.id in db.cas && db.cas[list[i].ca.meta.id].row == list[i].ca
      ensures CertsOf(db.certs, list[i].ca.meta.id, list[i].certs)
    {
      assert list[i] in list;
    }
    forall i, j | 0 <= i < j < |list| ensures list[i].ca.meta.id != list[j].ca.meta.id {
      assert list[i] in list && list[j] in list;
      if list[i].ca.meta.id == list[j].ca.meta.id {
        TextLtAsymmetric(list[i].ca.meta.id, list[j].ca.meta.id);
      }
    }
    forall k | k in db.cas ensures k in CaIds(list) {
      var i :| 0 <= i < |list| && list[i].ca.meta.id == k;
    }
    LoadEntries(start, db, list, c, now);
    PartAll(Bare(db).cas, CaIds(list));
    PartAll(db.certs, CertsUnder(db, CaIds(list)));
  }

  lemma KeptRoundTrip(db: Db, s: Snapshot<Bytes>, c: Codec, now: int)
    requires DbOk(db) && SnapshotOf(db, s) && AllKept(db, c) && Lawful(c) && now != 0
    ensures RestoreFile(ToFile(s, c), c, now) == Some(Bare(db))
  {
    hide AllKept, DbOk, UsersOf, TemplatesOf, EntriesOf, ToSnapshot, AddUsers, AddTemplates, AddEntries;
    KeptSnapshot(db, s, c, now);
    UsersLoaded(db, s.users, EMPTY, c, now);
    TemplatesLoaded(db, s.templates, EMPTY.(users := db.users));
    EntriesLoaded(db, s.cas, EMPTY.(users := db.users, templates := db.templates), c, now);
  }

  // what a restore puts in stays until its end

  ghost predicate Extends(a: Db, b: Db) {
    && (forall k :: k in a.users ==> k in b.users && b.users[k] == a.users[k])
    && (forall k :: k in a.templates ==> k in b.templates && b.templates[k] == a.templates[k])
    && (forall k :: k in a.cas ==> k in b.cas && b.cas[k] == a.cas[k])
    && (forall k :: k in a.certs ==> k in b.certs && b.certs[k] == a.certs[k])
  }

  lemma {:induction false} UsersAdded(db: Db, list: seq<User>, now: int)
    requires AddUsers(db, list, now).Some?
    ensures var after := AddUsers(db, list, now).value;
      && Extends(db, after)
      && forall i :: 0 <= i < |list| ==>
           list[i].id in after.users && after.users[list[i].id] == RestoredUser(list[i], now)
  {
    hide AddUser;
    if list != [] {
      var (init, last) := (list[..|list| - 1], list[|list| - 1]);
      UsersAdded(db, init, now);
      UserAdded(AddUsers(db, init, now).value, last, now);
    }
  }

  lemma UserAdded(db: Db, u: User, now: int)
    requires AddUser(db, u, now).Some?
    ensures var after := AddUser(db, u, now).value;
      Extends(db, after) && u.id in after.users && after.users[u.id] == RestoredUser(u, now)
  {
    hide RestoredUser, UsernameUsed;
  }

  lemma {:induction false} TemplatesAdded(db: Db, list: seq<T.Template>)
    requires AddTemplates(db, list).Some?
    ensures var after := AddTemplates(db, list).value;
      && Extends(db, after)
      && forall i :: 0 <= i < |list| ==> list[i].id in after.templates && after.templates[list[i].id] == list[i]
  {
    hide AddTemplate;
    if list != [] {
      var (init, last) := (list[..|list| - 1], list[|list| - 1]);
      TemplatesAdded(db, init);
      TemplateAdded(AddTemplates(db, init).value, last);
    }
  }

  lemma TemplateAdded(db: Db, t: T.Template)
    requires AddTemplate(db, t).Some?
    ensures var after := AddTemplate(db, t).value;
      Extends(db, after) && t.id in after.templates && after.templates[t.id] == t
  {
    hide T.NameTaken;
  }

  lemma {:induction false} CertsAdded(db: Db, caId: string, list: seq<CertRow<List, Bytes>>, now: int)
    requires AddCerts(db, caId, list, now).Some?
    ensures var after := AddCerts(db, caId, list, now).value;
      && Extends(db, after)
      && forall i :: 0 <= i < |list| ==>
           list[i].meta.id in after.certs && after.certs[list[i].meta.id] == RestoredCert(list[i], now)
  {
    hide AddCert, RestoredCert;
    if list != [] {
      var (init, last) := (list[..|list| - 1], list[|list| - 1]);
      CertsAdded(db, caId, init, now);
      CertAdded(AddCerts(db, caId, init, now).value, caId, last, now);
    }
  }

  lemma CertAdded(db: Db, caId: string, cert: CertRow<List, Bytes>, now: int)
    requires AddCert(db, caId, cert, now).Some?
    ensures var after := AddCert(db, caId, cert, now).value;
      Extends(db, after) && cert.meta.id in after.certs && after.certs[cert.meta.id] == RestoredCert(cert, now)
  {
    hide RestoredCert;
  }

  ghost predicate HoldsEntry(db: Db, e: CaEntry<Bytes>, now: int) {
    && e.ca.meta.id in db.cas && db.cas[e.ca.meta.id] == RestoredCa(e.ca, now)
    && forall i :: 0 <= i < |e.certs| ==>
         e.certs[i].meta.id in db.certs && db.certs[e.certs[i].meta.id] == RestoredCert(e.certs[i], now)
  }

  lemma EntryAdded(db: Db, e: CaEntry<Bytes>, now: int)
    requires AddEntry(db, e, now).Some?
    ensures Extends(db, AddEntry(db, e, now).value) && HoldsEntry(AddEntry(db, e, now).value, e, now)
  {
    hide RestoredCert, RestoredCa, AddCerts;
    CertsAdded(AddCa(db, e.ca, now).value, e.ca.meta.id, e.certs, now);
  }

  lemma {:induction false} EntriesAdded(db: Db, list: seq<CaEntry<Bytes>>, now: int)
    requires AddEntries(db, list, now).Some?
    ensures var after := AddEntries(db, list, now).value;
      Extends(db, after) && forall i :: 0 <= i < |list| ==> HoldsEntry(after, list[i], now)
  {
    hide AddEntry, Extends, HoldsEntry;
    if list == [] {
      ExtendsItself(db);
    } else {
      var (init, last) := (list[..|list| - 1], list[|list| - 1]);
      var before := AddEntries(db, init, now).value;
      EntriesAdded(db, init, now);
      EntryAdded(before, last, now);
      var after := AddEntries(db, list, now).value;
      ExtendsOnwards(db, before, after);
      forall i | 0 <= i < |init| ensures HoldsEntry(after, list[i], now) {
        assert list[i] == init[i];
        StillHoldsEntry(before, after, init[i], now);
      }
    }
  }

  lemma ExtendsItself(db: Db)
    ensures Extends(db, db)
  {
  }

  lemma ExtendsOnwards(a: Db, b: Db, c: Db)
    requires Extends(a, b) && Extends(b, c)
    ensures Extends(a, c)
  {
  }

  lemma StillHoldsEntry(before: Db, after: Db, e: CaEntry<Bytes>, now: int)
    requires Extends(before, after) && HoldsEntry(before, e, now)
    ensures HoldsEntry(after, e, now)
  {
    hide RestoredCa, RestoredCert;
  }

  lemma RestoredRows(s: Snapshot<Bytes>, now: int)
    requires Restore(EMPTY, s, now).Some?
    ensures var after := Restore(EMPTY, s, now).value;
      && (forall i :: 0 <= i < |s.users| ==>
            s.users[i].id in after.users && after.users[s.users[i].id] == RestoredUser(s.users[i], now))
      && (forall i :: 0 <= i < |s.templates| ==>
            s.templates[i].id in after.templates && after.templates[s.templates[i].id] == s.templates[i])
      && (forall i :: 0 <= i < |s.cas| ==> HoldsEntry(after, s.cas[i], now))
  {
    hide RestoredUser, HoldsEntry, AddUsers, AddTemplates, AddEntries;
    var withUsers := AddUsers(EMPTY, s.users, now).value;
    var withTemplates := AddTemplates(withUsers, s.templates).value;
    UsersAdded(EMPTY, s.users, now);
    TemplatesAdded(withUsers, s.templates);
    EntriesAdded(withTemplates, s.cas, now);
  }

  // every row of the file went through its check

  lemma {:induction false} UsersChecked(list: seq<User>, i: nat)
    requires CheckUsers(list).Some? && i < |list|
    ensures |CheckUsers(list).value| == |list| && CheckUser(list[i]) == Some(CheckUsers(list).value[i])
  {
    hide CheckUser;
    if |list| > 1 {
      UsersChecked(list[..|list| - 1], if i < |list| - 1 then i else 0);
    } else {
      assert CheckUsers(list[..0]) == Some([]);
    }
  }

  lemma {:induction false} TemplatesChecked(list: seq<T.Template>, c: Codec, i: nat)
    requires CheckTemplates(list, c).Some? && i < |list|
    ensures |CheckTemplates(list, c).value| == |list|
    ensures CheckTemplate(list[i], c) == Some(CheckTemplates(list, c).value[i])
  {
    hide CheckTemplate;
    if |list| > 1 {
      TemplatesChecked(list[..|list| - 1], c, if i < |list| - 1 then i else 0);
    } else {
      assert CheckTemplates(list[..0], c) == Some([]);
    }
  }

  lemma {:induction false} CertsChecked(caId: string, list: seq<CertRow<List, string>>, c: Codec, i: nat)
    requires CheckCerts(caId, list, c).Some? && i < |list|
    ensures |CheckCerts(caId, list, c).value| == |list|
    ensures CheckCert(caId, list[i], c) == Some(CheckCerts(caId, list, c).value[i])
  {
    hide CheckCert;
    if |list| > 1 {
      CertsChecked(caId, list[..|list| - 1], c, if i < |list| - 1 then i else 0);
    } else {
      assert CheckCerts(caId, list[..0], c) == Some([]);
    }
  }

  lemma {:induction false} EntriesChecked(list: seq<CaEntry<string>>, c: Codec, i: nat)
    requires CheckEntries(list, c).Some? && i < |list|
    ensures |CheckEntries(list, c).value| == |list| && CheckEntry(list[i], c) == Some(CheckEntries(list, c).value[i])
  {
    hide CheckEntry;
    if |list| > 1 {
      EntriesChecked(list[..|list| - 1], c, if i < |list| - 1 then i else 0);
    } else {
      assert CheckEntries(list[..0], c) == Some([]);
    }
  }

  lemma CheckedUserKept(db: Db, s: Snapshot<Bytes>, s': Snapshot<Bytes>, k: string, now: int)
    requires DbOk(db) && UsersOf(db.users, s.users) && now != 0 && k in db.users
    requires CheckUsers(s.users) == Some(s'.users)
    requires forall i :: 0 <= i < |s'.users| ==>
      s'.users[i].id in db.users && db.users[s'.users[i].id] == RestoredUser(s'.users[i], now)
    ensures UserKept(db.users[k])
  {
    hide TextLt, CheckUser, RestoredUser, UserKept;
    var u := db.users[k];
    assert u in s.users;
    var i :| 0 <= i < |s.users| && s.users[i] == u;
    UsersChecked(s.users, i);
    CheckKeepsUserId(u);
    UserThrough(u, now);
  }

  lemma CheckKeepsUserId(u: User)
    ensures CheckUser(u).Some? ==> CheckUser(u).value.id == u.id
  {
    hide NormalRole, Trim, NoControl;
  }

  lemma CheckedTemplateKept(db: Db, s: Snapshot<Bytes>, s': Snapshot<Bytes>, c: Codec, k: string)
    requires DbOk(db) && TemplatesOf(db.templates, s.templates) && k in db.templates
    requires CheckTemplates(s.templates, c) == Some(s'.templates)
    requires forall i :: 0 <= i < |s'.templates| ==>
      s'.templates[i].id in db.templates && db.templates[s'.templates[i].id] == s'.templates[i]
    ensures TemplateKept(db.templates[k], c)
  {
    hide TextLt, Lower, CheckTemplate, TemplateKept;
    var t := db.templates[k];
    assert t in s.templates;
    var i :| 0 <= i < |s.templates| && s.templates[i] == t;
    TemplatesChecked(s.templates, c, i);
    CheckKeepsTemplateId(t, c);
    TemplateThrough(t, c);
  }

  lemma CheckKeepsTemplateId(t: T.Template, c: Codec)
    ensures CheckTemplate(t, c).Some? ==> CheckTemplate(t, c).value.id == t.id
  {
    hide Trim, NoControl, NormalValues, ValidValues, ValidId, T.ParseScope, T.ScopeName;
  }

  /** Where an entry stands in the snapshot, and what its check and its restoration gave. */
  lemma CheckedEntry(db: Db, s: Snapshot<Bytes>, s': Snapshot<Bytes>, c: Codec, k: string, now: int) returns (i: nat)
    requires EntriesOf(db, s.cas) && k in db.cas
    requires CheckEntries(EncodeEntries(s.cas, c), c) == Some(s'.cas)
    requires forall i :: 0 <= i < |s'.cas| ==> HoldsEntry(Bare(db), s'.cas[i], now)
    ensures i < |s.cas| == |s'.cas| && s.cas[i].ca.meta.id == k && s.cas[i].ca == db.cas[k].row
    ensures CertsOf(db.certs, k, s.cas[i].certs) && HoldsEntry(Bare(db), s'.cas[i], now)
    ensures CheckCa(EncodeCa(s.cas[i].ca, c), c) == Some(s'.cas[i].ca)
    ensures CheckCerts(k, EncodeCerts(s.cas[i].certs, c), c) == Some(s'.cas[i].certs)
  {
    hide CheckCa, CheckCerts, CheckEntries, CertsOf, EntriesOf, HoldsEntry, EncodeCa, EncodeCerts, EncodeEntries, Bare;
    i := EntryOf(db, s.cas, k);
    EntriesChecked(EncodeEntries(s.cas, c), c, i);
    EncodedCaId(s.cas[i].ca, c);
  }

  lemma EntryOf(db: Db, list: seq<CaEntry<Bytes>>, k: string) returns (i: nat)
    requires EntriesOf(db, list) && k in db.cas
    ensures i < |list| && list[i].ca.meta.id == k && list[i].ca == db.cas[k].row
    ensures CertsOf(db.certs, k, list[i].certs)
  {
    hide CertsOf, TextLt;
    i :| 0 <= i < |list| && list[i].ca.meta.id == k;
    assert list[i] in list;
  }

  lemma CheckedCaKept(db: Db, s: Snapshot<Bytes>, s': Snapshot<Bytes>, c: Codec, k: string, now: int)
    requires EntriesOf(db, s.cas) && k in db.cas && Lawful(c) && now != 0
    requires CheckEntries(EncodeEntries(s.cas, c), c) == Some(s'.cas)
    requires forall i :: 0 <= i < |s'.cas| ==> HoldsEntry(Bare(db), s'.cas[i], now)
    ensures CaKept(db.cas[k].row, c)
  {
    hide CheckCa, CaKept, EntriesOf, RestoredCa, EncodeCa, EncodeEntries, CheckEntries;
    var i := CheckedEntry(db, s, s', c, k, now);
    CheckKeepsCaId(db.cas[k].row, c);
    CaThrough(db.cas[k].row, c, now);
  }

  lemma CheckKeepsCaId(ca: CaRow<Bytes>, c: Codec)
    ensures var r := CheckCa(EncodeCa(ca, c), c);
      r.Some? ==> r.value.meta.id == ca.meta.id
  {
    hide CaSecretsOk, ValidId;
  }

  lemma CheckedCertKept(db: Db, s: Snapshot<Bytes>, s': Snapshot<Bytes>, c: Codec, k: string, now: int)
    requires DbOk(db) && EntriesOf(db, s.cas) && k in db.certs && Lawful(c) && now != 0
    requires CheckEntries(EncodeEntries(s.cas, c), c) == Some(s'.cas)
    requires forall i :: 0 <= i < |s'.cas| ==> HoldsEntry(Bare(db), s'.cas[i], now)
    ensures CertKept(db.certs[k], c)
  {
    hide CheckCa, CheckCert, CertKept, EntriesOf, RestoredCert, EncodeCa, EncodeCert, EncodeEntries, CheckEntries,
      CheckCerts, Read, RestoredCa;
    var cert := db.certs[k];
    var i := CheckedEntry(db, s, s', c, cert.meta.caId, now);
    var list := s.cas[i].certs;
    ReadKeepsCa(cert);
    assert Read(cert) in list;
    var j :| 0 <= j < |list| && list[j] == Read(cert);
    CertsChecked(cert.meta.caId, EncodeCerts(list, c), c, j);
    CheckKeepsCertId(cert, c);
    CertThrough(cert, c, now);
  }

  lemma CheckKeepsCertId(cert: StoredCert, c: Codec)
    ensures var r := CheckCert(cert.meta.caId, EncodeCert(Read(cert), c), c);
      r.Some? ==> r.value.meta.id == cert.meta.id
  {
    hide CertSecretsOk, ValidId, SplitList, ValidEntries, KnownReason;
  }

  lemma RoundTripKept(db: Db, s: Snapshot<Bytes>, c: Codec, now: int)
    requires DbOk(db) && SnapshotOf(db, s) && Lawful(c) && now != 0
    requires RestoreFile(ToFile(s, c), c, now) == Some(Bare(db))
    ensures AllKept(db, c)
  {
    hide UserKept, TemplateKept, CaKept, CertKept, UsersOf, TemplatesOf, EntriesOf, EncodeEntries, CheckEntries,
      CheckUsers, CheckTemplates, Restore, HoldsEntry, RestoredUser, DbOk;
    var s' := ToSnapshot(ToFile(s, c), c).value;
    RestoredRows(s', now);
    forall k | k in db.users ensures UserKept(db.users[k]) {
      CheckedUserKept(db, s, s', k, now);
    }
    forall k | k in db.templates ensures TemplateKept(db.templates[k], c) {
      CheckedTemplateKept(db, s, s', c, k);
    }
    forall k | k in db.cas ensures CaKept(db.cas[k].row, c) {
      CheckedCaKept(db, s, s', c, k, now);
    }
    forall k | k in db.certs ensures CertKept(db.certs[k], c) {
      CheckedCertKept(db, s, s', c, k, now);
    }
  }

  /**
   A backup restored into an empty database gives every row back, truststores apart, exactly when every row is one the
   checks leave alone: normal roles, templates and lists, nonzero timestamps, well-formed ids, PEM blocks and numbers.
   */
  lemma BackupRoundTrip(db: Db, s: Snapshot<Bytes>, c: Codec, now: int)
    requires DbOk(db) && SnapshotOf(db, s) && Lawful(c) && now != 0
    ensures RestoreFile(ToFile(s, c), c, now) == Some(Bare(db)) <==> AllKept(db, c)
  {
    hide RestoreFile, ToFile, AllKept, SnapshotOf, DbOk;
    if AllKept(db, c) {
      KeptRoundTrip(db, s, c, now);
    }
    if RestoreFile(ToFile(s, c), c, now) == Some(Bare(db)) {
      RoundTripKept(db, s, c, now);
    }
  }

  /** And then a second backup is the first one again. */
  lemma SecondBackupIsFirst(db: Db, s: Snapshot<Bytes>, t: Snapshot<Bytes>, c: Codec, now: int)
    requires DbOk(db) && SnapshotOf(db, s) && Lawful(c) && now != 0 && AllKept(db, c)
    requires RestoreFile(ToFile(s, c), c, now).Some? ==> SnapshotOf(RestoreFile(ToFile(s, c), c, now).value, t)
    ensures RestoreFile(ToFile(s, c), c, now).Some? && t == s
  {
    hide RestoreFile, ToFile, AllKept, DbOk, UsersOf, TemplatesOf, CertsOf;
    BackupRoundTrip(db, s, c, now);
    assert EntriesOf(Bare(db), t.cas) ==> EntriesOf(db, t.cas);
    SnapshotIsUnique(db, s, t);
  }
}
