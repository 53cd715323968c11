/**
 What restoring a backup file of any origin does (src/service.rs, src/db.rs): exactly which files are accepted, and
 exactly which rows an accepted one leaves in the empty database.
 */
module BackupRestore {
  import opened Wrappers
  import opened ByteStrings
  import opened Texts
  import opened Backup
  import T = Templates

  // ----- which rows are accepted -----

  predicate UserFine(u: User) {
    && (Lower(Trim(u.role)) == "admin" || Lower(Trim(u.role)) == "viewer")
    && Trim(u.username) != "" && NoControl(u.username)
  }

  predicate TemplateFine(t: T.Template, c: Codec) {
    && (Trim(t.scopeText) == "both" || Trim(t.scopeText) == "ca" || Trim(t.scopeText) == "certificate")
    && ValidId(t.id) && Trim(t.name) != "" && NoControl(Trim(t.name)) && ValidValues(NormalValues(t.values, c.upper))
  }

  predicate Decodes(text: string, c: Codec) {
    c.decode(text).Some?
  }

  predicate CaFine(ca: CaRow<string>, c: Codec) {
    var s := ca.secrets;
    && ValidId(ca.meta.id)
    && Decodes(s.certPem, c) && Decodes(s.keyPem, c) && Decodes(s.pkcs12, c) && Decodes(s.password, c)
    && Decodes(s.indexTxt, c) && Decodes(s.serialTxt, c) && Decodes(s.crlDer, c) && Decodes(s.crlnumberTxt, c)
    && IsPem(c.decode(s.certPem).value, "CERTIFICATE", c) && IsPem(c.decode(s.keyPem).value, "PRIVATE KEY", c)
    && IsHexState(c.decode(s.serialTxt).value, false, c) && IsHexState(c.decode(s.crlnumberTxt).value, true, c)
  }

  predicate CertFine(caId: string, cert: CertRow<List, string>, c: Codec) {
    var s := cert.secrets;
    && ValidId(cert.meta.id) && cert.meta.caId == caId
    && (forall i :: 0 <= i < |cert.meta.dns| ==> ';' !in cert.meta.dns[i] && NoControl(cert.meta.dns[i]))
    && (forall i :: 0 <= i < |cert.meta.ips| ==> ';' !in cert.meta.ips[i] && NoControl(cert.meta.ips[i]))
    && (cert.meta.revocationReason.Some? ==> KnownReason(cert.meta.revocationReason.value))
    && Decodes(s.certPem, c) && Decodes(s.keyPem, c) && Decodes(s.csrPem, c) && Decodes(s.pkcs12, c)
    && Decodes(s.password, c) && Decodes(s.bundleZip, c)
    && IsPem(c.decode(s.certPem).value, "CERTIFICATE", c) && IsPem(c.decode(s.keyPem).value, "PRIVATE KEY", c)
    && IsPem(c.decode(s.csrPem).value, "CERTIFICATE REQUEST", c)
  }

  ghost predicate EntryFine(e: CaEntry<string>, c: Codec) {
    CaFine(e.ca, c) && forall j :: 0 <= j < |e.certs| ==> CertFine(e.ca.meta.id, e.certs[j], c)
  }

  ghost predicate FileFine(file: Snapshot<string>, c: Codec) {
    && (forall i :: 0 <= i < |file.users| ==> UserFine(file.users[i]))
    && (forall i :: 0 <= i < |file.templates| ==> TemplateFine(file.templates[i], c))
    && (forall i :: 0 <= i < |file.cas| ==> EntryFine(file.cas[i], c))
  }

  // ----- what becomes of them -----

  /** A zero timestamp, of an older backup, becomes the moment of the restore. */
  predicate IsStamp(created: int, at: int, now: int) {
    created == if at == 0 then now else at
  }

  predicate UserBecomes(u: User, row: User, now: int) {
    && row.id == u.id && row.username == u.username && row.passwordHash == u.passwordHash
    && row.role == Lower(Trim(u.role)) && IsStamp(row.createdAt, u.createdAt, now)
  }

  /** Blank text becomes no text, other text loses the blanks around it. */
  predicate IsCleaned(after: Option<string>, before: Option<string>, f: string -> string) {
    after == if before.Some? && Trim(before.value) != "" then Some(f(Trim(before.value))) else None
  }

  predicate ValuesBecome(v: T.Values, w: T.Values, c: Codec) {
    && IsCleaned(w.countryCode, v.countryCode, c.upper) && IsCleaned(w.state, v.state, s => s)
    && IsCleaned(w.city, v.city, s => s) && IsCleaned(w.organization, v.organization, s => s)
    && IsCleaned(w.organizationUnit, v.organizationUnit, s => s) && w.validDays == v.validDays
    && IsCleaned(w.digestAlgorithm, v.digestAlgorithm, Lower) && IsCleaned(w.keyProfile, v.keyProfile, Lower)
  }

  predicate TemplateBecomes(t: T.Template, row: T.Template, c: Codec) {
    && row.id == t.id && row.name == Trim(t.name) && row.scopeText == Trim(t.scopeText)
    && row.isDefault == t.isDefault && row.createdAt == t.createdAt && row.updatedAt == t.updatedAt
    && ValuesBecome(t.values, row.values, c)
  }

  predicate StampsBecome(createdAt: int, updatedAt: int, created: int, updated: int, now: int) {
    IsStamp(created, createdAt, now) && IsStamp(updated, updatedAt, created)
  }

  predicate CaBecomes(ca: CaRow<string>, stored: StoredCa, c: Codec, now: int) {
    var (s, b) := (ca.secrets, stored.row.secrets);
    && stored.row.meta == ca.meta && stored.row.deleted == ca.deleted && stored.truststore == []
    && c.decode(s.certPem) == Some(b.certPem) && c.decode(s.keyPem) == Some(b.keyPem)
    && c.decode(s.pkcs12) == Some(b.pkcs12) && c.decode(s.password) == Some(b.password)
    && c.decode(s.indexTxt) == Some(b.indexTxt) && c.decode(s.serialTxt) == Some(b.serialTxt)
    && c.decode(s.crlDer) == Some(b.crlDer) && c.decode(s.crlnumberTxt) == Some(b.crlnumberTxt)
    && b.crlUpdatedAt == s.crlUpdatedAt
    && StampsBecome(ca.createdAt, ca.updatedAt, stored.row.createdAt, stored.row.updatedAt, now)
  }

  predicate MetaBecomes(m: CertMeta<List>, w: CertMeta<string>) {
    && w.id == m.id && w.caId == m.caId && w.commonName == m.commonName && w.countryCode == m.countryCode
    && w.state == m.state && w.city == m.city && w.organization == m.organization
    && w.organizationUnit == m.organizationUnit && w.subject == m.subject && w.issueTime == m.issueTime
    && w.validDays == m.validDays && w.dns == Join(m.dns, ';') && w.ips == Join(m.ips, ';')
    && w.keyProfile == m.keyProfile && w.digestAlgorithm == m.digestAlgorithm
    && w.revokedAt == m.revokedAt && w.revocationReason == m.revocationReason
  }

  predicate CertBecomes(cert: CertRow<List, string>, stored: StoredCert, c: Codec, now: int) {
    var (s, b) := (cert.secrets, stored.secrets);
    && MetaBecomes(cert.meta, stored.meta) && stored.deleted == cert.deleted
    && c.decode(s.certPem) == Some(b.certPem) && c.decode(s.keyPem) == Some(b.keyPem)
    && c.decode(s.csrPem) == Some(b.csrPem) && c.decode(s.pkcs12) == Some(b.pkcs12)
    && c.decode(s.password) == Some(b.password) && c.decode(s.bundleZip) == Some(b.bundleZip)
    && StampsBecome(cert.createdAt, cert.updatedAt, stored.createdAt, stored.updatedAt, now)
  }

  lemma UserChecks(u: User, now: int)
    ensures CheckUser(u).Some? <==> UserFine(u)
    ensures UserFine(u) ==> CheckUser(u).value.id == u.id && CheckUser(u).value.username == u.username
                            && UserBecomes(u, RestoredUser(CheckUser(u).value, now), now)
  {
    hide Trim, Lower, NoControl;
  }

  lemma ValuesNormalize(v: T.Values, c: Codec)
    ensures ValuesBecome(v, NormalValues(v, c.upper), c)
  {
    hide Trim, Lower;
  }

  lemma TemplateChecks(t: T.Template, c: Codec)
    ensures CheckTemplate(t, c).Some? <==> TemplateFine(t, c)
    ensures TemplateFine(t, c) ==> TemplateBecomes(t, CheckTemplate(t, c).value, c)
  {
    hide Trim, Lower, NoControl, ValidValues, ValidId, NormalValues, ValuesBecome;
    ValuesNormalize(t.values, c);
  }

  lemma CaChecks(ca: CaRow<string>, c: Codec, now: int)
    ensures CheckCa(ca, c).Some? <==> CaFine(ca, c)
    ensures CaFine(ca, c) ==> CheckCa(ca, c).value.meta.id == ca.meta.id
                              && CaBecomes(ca, RestoredCa(CheckCa(ca, c).value, now), c, now)
  {
    hide IsPem, IsHexState, ValidId;
  }

  lemma CertChecks(caId: string, cert: CertRow<List, string>, c: Codec, now: int)
    ensures CheckCert(caId, cert, c).Some? <==> CertFine(caId, cert, c)
    ensures CertFine(caId, cert, c) ==> CheckCert(caId, cert, c).value.meta.id == cert.meta.id
                                        && CheckCert(caId, cert, c).value.meta.caId == caId
                                        && CertBecomes(cert, RestoredCert(CheckCert(caId, cert, c).value, now), c, now)
  {
    hide IsPem, KnownReason, ValidId, NoControl;
  }

  // ----- the whole file -----

  lemma {:induction false} UsersCheck(list: seq<User>)
    ensures CheckUsers(list).Some? <==> forall i :: 0 <= i < |list| ==> UserFine(list[i])
    ensures CheckUsers(list).Some? ==> |CheckUsers(list).value| == |list|
  {
    hide CheckUser, UserFine, UserBecomes;
    if list != [] {
      var (init, last) := (list[..|list| - 1], list[|list| - 1]);
      UsersCheck(init);
      UserChecks(last, 0);
      assert list == init + [last];
    }
  }

  lemma {:induction false} TemplatesCheck(list: seq<T.Template>, c: Codec)
    ensures CheckTemplates(list, c).Some? <==> forall i :: 0 <= i < |list| ==> TemplateFine(list[i], c)
    ensures CheckTemplates(list, c).Some? ==> |CheckTemplates(list, c).value| == |list|
  {
    hide CheckTemplate, TemplateFine, TemplateBecomes;
    if list != [] {
      var (init, last) := (list[..|list| - 1], list[|list| - 1]);
      TemplatesCheck(init, c);
      TemplateChecks(last, c);
      assert list == init + [last];
    }
  }

  lemma {:induction false} CertsCheck(caId: string, list: seq<CertRow<List, string>>, c: Codec)
    ensures CheckCerts(caId, list, c).Some? <==> forall i :: 0 <= i < |list| ==> CertFine(caId, list[i], c)
    ensures CheckCerts(caId, list, c).Some? ==> |CheckCerts(caId, list, c).value| == |list|
  {
    hide CheckCert, CertFine, CertBecomes;
    if list != [] {
      var (init, last) := (list[..|list| - 1], list[|list| - 1]);
      CertsCheck(caId, init, c);
      CertChecks(caId, last, c, 0);
      assert list == init + [last];
    }
  }

  lemma EntryChecks(e: CaEntry<string>, c: Codec)
    ensures CheckEntry(e, c).Some? <==> EntryFine(e, c)
  {
    hide CheckCa, CheckCert, CheckCerts, CaFine, CertFine, CaBecomes;
    CaChecks(e.ca, c, 0);
    CertsCheck(e.ca.meta.id, e.certs, c);
  }

  lemma {:induction false} EntriesCheck(list: seq<CaEntry<string>>, c: Codec)
    ensures CheckEntries(list, c).Some? <==> forall i :: 0 <= i < |list| ==> EntryFine(list[i], c)
    ensures CheckEntries(list, c).Some? ==> |CheckEntries(list, c).value| == |list|
  {
    hide CheckEntry, EntryFine;
    if list != [] {
      var (init, last) := (list[..|list| - 1], list[|list| - 1]);
      EntriesCheck(init, c);
      EntryChecks(last, c);
      assert list == init + [last];
    }
  }

  lemma FileChecks(file: Snapshot<string>, c: Codec)
    ensures ToSnapshot(file, c).Some? <==> FileFine(file, c)
  {
    hide CheckUsers, CheckTemplates, CheckEntries, UserFine, TemplateFine, EntryFine;
    UsersCheck(file.users);
    TemplatesCheck(file.templates, c);
    EntriesCheck(file.cas, c);
  }

  // ----- which checked rows clash -----

  ghost predicate UsersApart(list: seq<User>) {
    forall i, j :: 0 <= i < j < |list| ==> list[i].id != list[j].id && list[i].username != list[j].username
  }

  ghost predicate TemplatesApart(list: seq<T.Template>) {
    forall i, j :: 0 <= i < j < |list| ==>
      list[i].id != list[j].id && Lower(Trim(list[i].name)) != Lower(Trim(list[j].name))
  }

  /** No certificate id stands in both lists. */
  ghost predicate CertsApart<B>(a: seq<CertRow<List, B>>, b: seq<CertRow<List, B>>) {
    forall i, j :: 0 <= i < |a| && 0 <= j < |b| ==> a[i].meta.id != b[j].meta.id
  }

  ghost predicate CertsDistinct<B>(certs: seq<CertRow<List, B>>) {
    forall i, j :: 0 <= i < j < |certs| ==> certs[i].meta.id != certs[j].meta.id
  }

  ghost predicate EntriesApart<B>(list: seq<CaEntry<B>>) {
    && (forall i, j :: 0 <= i < j < |list| ==>
          list[i].ca.meta.id != list[j].ca.meta.id && CertsApart(list[i].certs, list[j].certs))
    && (forall i :: 0 <= i < |list| ==> CertsDistinct(list[i].certs))
  }

  ghost predicate NoClashes(file: Snapshot<string>) {
    UsersApart(file.users) && TemplatesApart(file.templates) && EntriesApart(file.cas)
  }

  ghost predicate HasUser(list: seq<User>, id: string) {
    exists i :: 0 <= i < |list| && list[i].id == id
  }

  ghost predicate HasTemplate(list: seq<T.Template>, id: string) {
    exists i :: 0 <= i < |list| && list[i].id == id
  }

  ghost predicate HasCert<B>(list: seq<CertRow<List, B>>, id: string) {
    exists i :: 0 <= i < |list| && list[i].meta.id == id
  }

  ghost predicate HasCa<B>(list: seq<CaEntry<B>>, id: string) {
    exists i :: 0 <= i < |list| && list[i].ca.meta.id == id
  }

  ghost predicate HasCertIn<B>(list: seq<CaEntry<B>>, id: string) {
    exists i :: 0 <= i < |list| && HasCert(list[i].certs, id)
  }

  // ----- what the insertions leave -----

  /** The user table holds the listed users, in their restored form, and nobody else. */
  ghost predicate UsersIn(list: seq<User>, rows: map<string, User>, now: int) {
    && (forall id :: id in rows ==> HasUser(list, id))
    && (forall i :: 0 <= i < |list| ==> list[i].id in rows && rows[list[i].id] == RestoredUser(list[i], now))
  }

  lemma FreshUser(list: seq<User>, rows: map<string, User>, u: User, now: int)
    requires UsersIn(list, rows, now)
    ensures (u.id in rows <==> exists i :: 0 <= i < |list| && list[i].id == u.id)
    ensures (UsernameUsed(rows, u.username) <==> exists i :: 0 <= i < |list| && list[i].username == u.username)
  {
    forall id | id in rows && rows[id].username == u.username
      ensures exists i :: 0 <= i < |list| && list[i].username == u.username
    {
      var i :| 0 <= i < |list| && list[i].id == id;
      assert list[i].username == rows[id].username;
    }
    forall i | 0 <= i < |list| && list[i].username == u.username ensures UsernameUsed(rows, u.username) {
      assert rows[list[i].id].username == u.username;
    }
  }

  lemma UserNext(list: seq<User>, rows: map<string, User>, u: User, now: int)
    requires UsersIn(list, rows, now) && u.id !in rows
    ensures UsersIn(list + [u], rows[u.id := RestoredUser(u, now)], now)
  {
    hide RestoredUser;
    var (longer, more) := (list + [u], rows[u.id := RestoredUser(u, now)]);
    forall id | id in more ensures HasUser(longer, id) {
      if id == u.id {
        assert longer[|list|].id == id;
      } else {
        var i :| 0 <= i < |list| && list[i].id == id;
        assert longer[i].id == id;
      }
    }
  }

  /** From an empty table, users are inserted unless an id or a name repeats. */
  lemma {:induction false} UsersInserted(db: Db, list: seq<User>, now: int)
    requires db.users == map[]
    ensures AddUsers(db, list, now).Some? <==> UsersApart(list)
    ensures UsersApart(list) ==>
              var after := AddUsers(db, list, now).value;
              after == db.(users := after.users) && UsersIn(list, after.users, now)
  {
    hide UsersIn, UsernameUsed, RestoredUser;
    if list == [] {
      NoUsers(now);
    } else {
      var (init, last) := (list[..|list| - 1], list[|list| - 1]);
      UsersInserted(db, init, now);
      assert list == init + [last];
      if UsersApart(init) {
        var before := AddUsers(db, init, now).value;
        FreshUser(init, before.users, last, now);
        if last.id !in before.users {
          UserNext(init, before.users, last, now);
        }
      }
    }
  }

  lemma NoUsers(now: int)
    ensures UsersIn([], map[], now)
  {
  }

  ghost predicate TemplatesIn(list: seq<T.Template>, rows: map<string, T.Template>) {
    && (forall id :: id in rows ==> HasTemplate(list, id))
    && (forall i :: 0 <= i < |list| ==> list[i].id in rows && rows[list[i].id] == list[i])
  }

  lemma FreshTemplate(list: seq<T.Template>, rows: map<string, T.Template>, t: T.Template)
    requires TemplatesIn(list, rows)
    ensures (t.id in rows <==> exists i :: 0 <= i < |list| && list[i].id == t.id)
    ensures t.id !in rows ==>
      (T.NameTaken(rows, t.name, t.id) <==> exists i :: 0 <= i < |list| && Lower(list[i].name) == Lower(t.name))
  {
    hide Lower;
    forall id | id in rows && Lower(rows[id].name) == Lower(t.name)
      ensures exists i :: 0 <= i < |list| && Lower(list[i].name) == Lower(t.name)
    {
      var i :| 0 <= i < |list| && list[i].id == id;
      assert Lower(list[i].name) == Lower(rows[id].name);
    }
    forall i | 0 <= i < |list| && Lower(list[i].name) == Lower(t.name)
      ensures t.id !in rows ==> T.NameTaken(rows, t.name, t.id)
    {
      assert Lower(rows[list[i].id].name) == Lower(t.name);
    }
  }

  lemma TemplateNext(list: seq<T.Template>, rows: map<string, T.Template>, t: T.Template)
    requires TemplatesIn(list, rows) && t.id !in rows
    ensures TemplatesIn(list + [t], rows[t.id := t])
  {
    var (longer, more) := (list + [t], rows[t.id := t]);
    forall id | id in more ensures HasTemplate(longer, id) {
      if id == t.id {
        assert longer[|list|].id == id;
      } else {
        var i :| 0 <= i < |list| && list[i].id == id;
        assert longer[i].id == id;
      }
    }
  }

  ghost predicate CheckedApart(list: seq<T.Template>) {
    forall i, j :: 0 <= i < j < |list| ==> list[i].id != list[j].id && Lower(list[i].name) != Lower(list[j].name)
  }

  lemma ApartNext(list: seq<T.Template>, t: T.Template)
    ensures CheckedApart(list + [t]) <==>
            CheckedApart(list)
            && !(exists i :: 0 <= i < |list| && list[i].id == t.id)
            && !(exists i :: 0 <= i < |list| && Lower(list[i].name) == Lower(t.name))
  {
    hide Lower;
    var longer := list + [t];
    assert longer[|list|] == t && longer[..|list|] == list;
    if CheckedApart(longer) {
      forall i | 0 <= i < |list| ensures list[i].id != t.id && Lower(list[i].name) != Lower(t.name) {
        assert longer[i] == list[i];
      }
      forall i, j | 0 <= i < j < |list|
        ensures list[i].id != list[j].id && Lower(list[i].name) != Lower(list[j].name)
      {
        assert longer[i] == list[i] && longer[j] == list[j];
      }
    }
  }

  lemma {:induction false} TemplatesInserted(db: Db, list: seq<T.Template>)
    requires db.templates == map[]
    ensures AddTemplates(db, list).Some? <==> CheckedApart(list)
    ensures CheckedApart(list) ==>
              var after := AddTemplates(db, list).value;
              after == db.(templates := after.templates) && TemplatesIn(list, after.templates)
  {
    hide TemplatesIn, T.NameTaken, Lower, CheckedApart;
    if list == [] {
      NoTemplates();
    } else {
      var (init, last) := (list[..|list| - 1], list[|list| - 1]);
      TemplatesInserted(db, init);
      assert list == init + [last];
      ApartNext(init, last);
      if CheckedApart(init) {
        var before := AddTemplates(db, init).value;
        FreshTemplate(init, before.templates, last);
        if last.id !in before.templates {
          TemplateNext(init, before.templates, last);
        }
      }
    }
  }

  lemma NoTemplates()
    ensures TemplatesIn([], map[]) && CheckedApart([])
  {
  }

  /** The listed certificates have been added to those of `base`, in their restored form, and no other. */
  ghost predicate CertsAddedTo(base: map<string, StoredCert>, list: seq<CertRow<List, Bytes>>,
                               rows: map<string, StoredCert>, now: int) {
    && (forall id :: id in rows ==> id in base || HasCert(list, id))
    && (forall id :: id in base ==> id in rows && rows[id] == base[id])
    && (forall i :: 0 <= i < |list| ==>
          list[i].meta.id in rows && rows[list[i].meta.id] == RestoredCert(list[i], now))
  }

  ghost predicate NewTo(base: map<string, StoredCert>, list: seq<CertRow<List, Bytes>>) {
    forall i :: 0 <= i < |list| ==> list[i].meta.id !in base
  }

  lemma CertNext(base: map<string, StoredCert>, list: seq<CertRow<List, Bytes>>, rows: map<string, StoredCert>,
                 cert: CertRow<List, Bytes>, now: int)
    requires CertsAddedTo(base, list, rows, now) && cert.meta.id !in rows
    ensures CertsAddedTo(base, list + [cert], rows[cert.meta.id := RestoredCert(cert, now)], now)
  {
    hide RestoredCert;
    var (longer, more) := (list + [cert], rows[cert.meta.id := RestoredCert(cert, now)]);
    forall id | id in more && id !in base ensures HasCert(longer, id) {
      if id == cert.meta.id {
        assert longer[|list|].meta.id == id;
      } else {
        var i :| 0 <= i < |list| && list[i].meta.id == id;
        assert longer[i].meta.id == id;
      }
    }
  }

  lemma FreshCert(base: map<string, StoredCert>, list: seq<CertRow<List, Bytes>>, rows: map<string, StoredCert>,
                  id: string, now: int)
    requires CertsAddedTo(base, list, rows, now)
    ensures id in rows <==> id in base || exists i :: 0 <= i < |list| && list[i].meta.id == id
  {
    hide RestoredCert;
    assert id in rows && id !in base ==> HasCert(list, id);
  }

  lemma {:induction false} CertsInserted(db: Db, caId: string, list: seq<CertRow<List, Bytes>>, now: int)
    requires forall i :: 0 <= i < |list| ==> list[i].meta.caId == caId
    ensures AddCerts(db, caId, list, now).Some? <==> CertsDistinct(list) && NewTo(db.certs, list)
    ensures AddCerts(db, caId, list, now).Some? ==>
              var after := AddCerts(db, caId, list, now).value;
              after == db.(certs := after.certs) && CertsAddedTo(db.certs, list, after.certs, now)
  {
    hide CertsAddedTo, RestoredCert;
    if list == [] {
      NoCerts(db.certs, now);
    } else {
      var (init, last) := (list[..|list| - 1], list[|list| - 1]);
      CertsInserted(db, caId, init, now);
      assert list == init + [last];
      if AddCerts(db, caId, init, now).Some? {
        var before := AddCerts(db, caId, init, now).value;
        FreshCert(db.certs, init, before.certs, last.meta.id, now);
        if last.meta.id !in before.certs {
          CertNext(db.certs, init, before.certs, last, now);
        }
      }
    }
  }

  lemma NoCerts(base: map<string, StoredCert>, now: int)
    ensures CertsAddedTo(base, [], base, now)
  {
  }

  /** The CA and certificate tables hold the listed entries, in their restored form, and nothing else. */
  ghost predicate EntriesIn(list: seq<CaEntry<Bytes>>, cas: map<string, StoredCa>, certs: map<string, StoredCert>,
                            now: int) {
    && (forall id :: id in cas ==> HasCa(list, id))
    && (forall id :: id in certs ==> HasCertIn(list, id))
    && (forall i :: 0 <= i < |list| ==>
          list[i].ca.meta.id in cas && cas[list[i].ca.meta.id] == RestoredCa(list[i].ca, now))
    && (forall i :: 0 <= i < |list| ==> CertsIn(list[i].certs, certs, now))
  }

  ghost predicate CertsIn(list: seq<CertRow<List, Bytes>>, certs: map<string, StoredCert>, now: int) {
    forall j :: 0 <= j < |list| ==>
      list[j].meta.id in certs && certs[list[j].meta.id] == RestoredCert(list[j], now)
  }

  ghost predicate UnderTheirCas(list: seq<CaEntry<Bytes>>) {
    forall i :: 0 <= i < |list| ==>
      forall j :: 0 <= j < |list[i].certs| ==> list[i].certs[j].meta.caId == list[i].ca.meta.id
  }

  lemma FreshEntry(list: seq<CaEntry<Bytes>>, cas: map<string, StoredCa>, certs: map<string, StoredCert>,
                   e: CaEntry<Bytes>, now: int)
    requires EntriesIn(list, cas, certs, now)
    ensures e.ca.meta.id in cas <==> exists i :: 0 <= i < |list| && list[i].ca.meta.id == e.ca.meta.id
    ensures NewTo(certs, e.certs) <==> forall i :: 0 <= i < |list| ==> CertsApart(list[i].certs, e.certs)
  {
    hide RestoredCa, RestoredCert;
    if forall i :: 0 <= i < |list| ==> CertsApart(list[i].certs, e.certs) {
      forall j | 0 <= j < |e.certs| ensures e.certs[j].meta.id !in certs {
        assert e.certs[j].meta.id in certs ==> HasCertIn(list, e.certs[j].meta.id);
      }
    }
    if NewTo(certs, e.certs) {
      forall i | 0 <= i < |list| ensures CertsApart(list[i].certs, e.certs) {
        assert CertsIn(list[i].certs, certs, now);
      }
    }
  }

  lemma CertsStayIn(list: seq<CertRow<List, Bytes>>, base: map<string, StoredCert>, more: seq<CertRow<List, Bytes>>,
                    certs: map<string, StoredCert>, now: int)
    requires CertsIn(list, base, now) && CertsAddedTo(base, more, certs, now)
    ensures CertsIn(list, certs, now)
  {
    hide RestoredCert;
  }

  lemma AddedCertsAreIn(base: map<string, StoredCert>, more: seq<CertRow<List, Bytes>>, certs: map<string, StoredCert>,
                        now: int)
    requires CertsAddedTo(base, more, certs, now)
    ensures CertsIn(more, certs, now) && forall id :: id in certs ==> id in base || HasCert(more, id)
  {
    hide RestoredCert;
  }

  lemma EntryNext(list: seq<CaEntry<Bytes>>, cas: map<string, StoredCa>, certs: map<string, StoredCert>,
                  e: CaEntry<Bytes>, certs': map<string, StoredCert>, now: int)
    requires EntriesIn(list, cas, certs, now) && e.ca.meta.id !in cas
    requires CertsAddedTo(certs, e.certs, certs', now)
    ensures EntriesIn(list + [e], cas[e.ca.meta.id := RestoredCa(e.ca, now)], certs', now)
  {
    hide RestoredCa, CertsAddedTo, CertsIn, HasCert;
    var (longer, cas') := (list + [e], cas[e.ca.meta.id := RestoredCa(e.ca, now)]);
    AddedCertsAreIn(certs, e.certs, certs', now);
    forall id | id in cas' ensures HasCa(longer, id) {
      if id == e.ca.meta.id {
        assert longer[|list|].ca.meta.id == id;
      } else {
        var i :| 0 <= i < |list| && list[i].ca.meta.id == id;
        assert longer[i].ca.meta.id == id;
      }
    }
    forall id | id in certs' ensures HasCertIn(longer, id) {
      if id in certs {
        var i :| 0 <= i < |list| && HasCert(list[i].certs, id);
        assert HasCert(longer[i].certs, id);
      } else {
        assert HasCert(longer[|list|].certs, id);
      }
    }
    forall i | 0 <= i < |longer| ensures CertsIn(longer[i].certs, certs', now) {
      if i < |list| {
        CertsStayIn(list[i].certs, certs, e.certs, certs', now);
      }
    }
  }

  lemma EntryInserted(db: Db, e: CaEntry<Bytes>, now: int)
    requires forall j :: 0 <= j < |e.certs| ==> e.certs[j].meta.caId == e.ca.meta.id
    ensures AddEntry(db, e, now).Some? <==>
            e.ca.meta.id !in db.cas && CertsDistinct(e.certs) && NewTo(db.certs, e.certs)
    ensures AddEntry(db, e, now).Some? ==>
              var after := AddEntry(db, e, now).value;
              && after == db.(cas := db.cas[e.ca.meta.id := RestoredCa(e.ca, now)], certs := after.certs)
              && CertsAddedTo(db.certs, e.certs, after.certs, now)
  {
    hide AddCerts, CertsAddedTo, RestoredCa, CertsDistinct, NewTo;
    if e.ca.meta.id !in db.cas {
      CertsInserted(AddCa(db, e.ca, now).value, e.ca.meta.id, e.certs, now);
    }
  }

  lemma EntriesApartNext(list: seq<CaEntry<Bytes>>, e: CaEntry<Bytes>)
    ensures EntriesApart(list + [e]) <==>
            && EntriesApart(list) && CertsDistinct(e.certs)
            && !(exists i :: 0 <= i < |list| && list[i].ca.meta.id == e.ca.meta.id)
            && (forall i :: 0 <= i < |list| ==> CertsApart(list[i].certs, e.certs))
  {
    hide CertsApart, CertsDistinct;
    var longer := list + [e];
    assert longer[|list|] == e;
    assert forall i :: 0 <= i < |list| ==> longer[i] == list[i];
    if EntriesApart(longer) {
      forall i | 0 <= i < |list|
        ensures list[i].ca.meta.id != e.ca.meta.id && CertsApart(list[i].certs, e.certs) && CertsDistinct(list[i].certs)
      {
        assert longer[i] == list[i] && CertsApart(longer[i].certs, longer[|list|].certs);
        assert CertsDistinct(longer[i].certs);
      }
      forall i, j | 0 <= i < j < |list|
        ensures list[i].ca.meta.id != list[j].ca.meta.id && CertsApart(list[i].certs, list[j].certs)
      {
        assert longer[i] == list[i] && longer[j] == list[j];
      }
    }
  }

  lemma {:induction false} EntriesInserted(db: Db, list: seq<CaEntry<Bytes>>, now: int)
    requires db.cas == map[] && db.certs == map[] && UnderTheirCas(list)
    ensures AddEntries(db, list, now).Some? <==> EntriesApart(list)
    ensures EntriesApart(list) ==>
              var after := AddEntries(db, list, now).value;
              after == db.(cas := after.cas, certs := after.certs) && EntriesIn(list, after.cas, after.certs, now)
  {
    hide AddEntry, EntriesIn, CertsAddedTo, RestoredCa, CertsDistinct, NewTo, CertsApart, EntriesApart;
    if list == [] {
      NoEntries(now);
    } else {
      var (init, last) := (list[..|list| - 1], list[|list| - 1]);
      EntriesInserted(db, init, now);
      assert list == init + [last];
      EntriesApartNext(init, last);
      if EntriesApart(init) {
        var before := AddEntries(db, init, now).value;
        EntryInserted(before, last, now);
        FreshEntry(init, before.cas, before.certs, last, now);
        if AddEntry(before, last, now).Some? {
          EntryNext(init, before.cas, before.certs, last, AddEntry(before, last, now).value.certs, now);
        }
      }
    }
  }

  lemma NoEntries(now: int)
    ensures EntriesIn([], map[], map[], now) && EntriesApart<Bytes>([])
  {
  }

  // ----- the file and the database -----

  ghost predicate CertsRestored(list: seq<CertRow<List, string>>, certs: map<string, StoredCert>, c: Codec, now: int) {
    forall j :: 0 <= j < |list| ==>
      list[j].meta.id in certs && CertBecomes(list[j], certs[list[j].meta.id], c, now)
  }

  /** The database holds exactly the rows of the file, each in its stored form. */
  ghost predicate Restored(file: Snapshot<string>, db: Db, c: Codec, now: int) {
    && (forall id :: id in db.users ==> HasUser(file.users, id))
    && (forall id :: id in db.templates ==> HasTemplate(file.templates, id))
    && (forall id :: id in db.cas ==> HasCa(file.cas, id))
    && (forall id :: id in db.certs ==> HasCertIn(file.cas, id))
    && (forall i :: 0 <= i < |file.users| ==>
          file.users[i].id in db.users && UserBecomes(file.users[i], db.users[file.users[i].id], now))
    && (forall i :: 0 <= i < |file.templates| ==>
          && file.templates[i].id in db.templates
          && TemplateBecomes(file.templates[i], db.templates[file.templates[i].id], c))
    && (forall i :: 0 <= i < |file.cas| ==>
          && file.cas[i].ca.meta.id in db.cas
          && CaBecomes(file.cas[i].ca, db.cas[file.cas[i].ca.meta.id], c, now)
          && CertsRestored(file.cas[i].certs, db.certs, c, now))
  }

  lemma UsersAlike(list: seq<User>, checked: seq<User>, rows: map<string, User>, now: int)
    requires CheckUsers(list) == Some(checked)
    ensures |checked| == |list| && (UsersApart(checked) <==> UsersApart(list))
    ensures UsersIn(checked, rows, now) ==>
      && (forall id :: id in rows ==> HasUser(list, id))
      && (forall i :: 0 <= i < |list| ==> list[i].id in rows && UserBecomes(list[i], rows[list[i].id], now))
  {
    hide CheckUser, CheckUsers, UserFine, UserBecomes, RestoredUser;
    UsersCheck(list);
    forall i | 0 <= i < |list|
      ensures checked[i].id == list[i].id && checked[i].username == list[i].username
      ensures UserBecomes(list[i], RestoredUser(checked[i], now), now)
    {
      UsersChecked(list, i);
      UserChecks(list[i], now);
    }
    forall id ensures HasUser(checked, id) <==> HasUser(list, id) {
      assert HasUser(checked, id) ==> exists i :: 0 <= i < |list| && list[i].id == id;
      assert HasUser(list, id) ==> exists i :: 0 <= i < |list| && checked[i].id == id;
    }
  }

  lemma TemplatesAlike(list: seq<T.Template>, checked: seq<T.Template>, rows: map<string, T.Template>, c: Codec)
    requires CheckTemplates(list, c) == Some(checked)
    ensures |checked| == |list| && (CheckedApart(checked) <==> TemplatesApart(list))
    ensures TemplatesIn(checked, rows) ==>
      && (forall id :: id in rows ==> HasTemplate(list, id))
      && (forall i :: 0 <= i < |list| ==> list[i].id in rows && TemplateBecomes(list[i], rows[list[i].id], c))
  {
    hide CheckTemplate, CheckTemplates, TemplateFine, ValuesBecome, Lower, Trim;
    TemplatesCheck(list, c);
    forall i | 0 <= i < |list| ensures TemplateBecomes(list[i], checked[i], c) {
      TemplatesChecked(list, c, i);
      TemplateChecks(list[i], c);
    }
    forall id ensures HasTemplate(checked, id) <==> HasTemplate(list, id) {
      assert HasTemplate(checked, id) ==> exists i :: 0 <= i < |list| && list[i].id == id;
      assert HasTemplate(list, id) ==> exists i :: 0 <= i < |list| && checked[i].id == id;
    }
  }

  /** Checking keeps ids, and puts certificates under their CA. */
  ghost predicate SameIds(e: CaEntry<string>, f: CaEntry<Bytes>) {
    && f.ca.meta.id == e.ca.meta.id && |f.certs| == |e.certs|
    && forall j :: 0 <= j < |e.certs| ==>
         f.certs[j].meta.id == e.certs[j].meta.id && f.certs[j].meta.caId == f.ca.meta.id
  }

  lemma EntryAlike(e: CaEntry<string>, f: CaEntry<Bytes>, c: Codec, now: int)
    requires CheckEntry(e, c) == Some(f)
    ensures SameIds(e, f) && CaBecomes(e.ca, RestoredCa(f.ca, now), c, now)
    ensures forall j :: 0 <= j < |e.certs| ==> CertBecomes(e.certs[j], RestoredCert(f.certs[j], now), c, now)
  {
    hide CheckCa, CheckCert, CheckCerts, CaFine, CertFine, CaBecomes, CertBecomes, RestoredCa, RestoredCert;
    CaChecks(e.ca, c, now);
    CertsCheck(e.ca.meta.id, e.certs, c);
    forall j | 0 <= j < |e.certs|
      ensures f.certs[j].meta.id == e.certs[j].meta.id && f.certs[j].meta.caId == e.ca.meta.id
      ensures CertBecomes(e.certs[j], RestoredCert(f.certs[j], now), c, now)
    {
      CertsChecked(e.ca.meta.id, e.certs, c, j);
      CertChecks(e.ca.meta.id, e.certs[j], c, now);
    }
  }

  lemma ApartAlike(list: seq<CaEntry<string>>, checked: seq<CaEntry<Bytes>>)
    requires |checked| == |list| && forall i :: 0 <= i < |list| ==> SameIds(list[i], checked[i])
    ensures EntriesApart(checked) <==> EntriesApart(list)
  {
    forall i, j | 0 <= i < j < |list|
      ensures CertsApart(list[i].certs, list[j].certs) <==> CertsApart(checked[i].certs, checked[j].certs)
    {
      CertsApartAlike(list[i], checked[i], list[j], checked[j]);
    }
    forall i | 0 <= i < |list| ensures CertsDistinct(list[i].certs) <==> CertsDistinct(checked[i].certs) {
      CertsDistinctAlike(list[i], checked[i]);
    }
    hide CertsApart, CertsDistinct;
  }

  lemma CertsApartAlike(e: CaEntry<string>, f: CaEntry<Bytes>, e': CaEntry<string>, f': CaEntry<Bytes>)
    requires SameIds(e, f) && SameIds(e', f')
    ensures CertsApart(e.certs, e'.certs) <==> CertsApart(f.certs, f'.certs)
  {
  }

  lemma CertsDistinctAlike(e: CaEntry<string>, f: CaEntry<Bytes>)
    requires SameIds(e, f)
    ensures CertsDistinct(e.certs) <==> CertsDistinct(f.certs)
  {
  }

  lemma HasCertAlike(list: seq<CaEntry<string>>, checked: seq<CaEntry<Bytes>>, id: string)
    requires |checked| == |list| && forall i :: 0 <= i < |list| ==> SameIds(list[i], checked[i])
    ensures HasCertIn(checked, id) ==> HasCertIn(list, id)
    ensures HasCa(checked, id) ==> HasCa(list, id)
  {
    if HasCertIn(checked, id) {
      var i :| 0 <= i < |checked| && HasCert(checked[i].certs, id);
      var j :| 0 <= j < |checked[i].certs| && checked[i].certs[j].meta.id == id;
      assert list[i].certs[j].meta.id == id;
      assert HasCert(list[i].certs, id);
    }
    if HasCa(checked, id) {
      var i :| 0 <= i < |checked| && checked[i].ca.meta.id == id;
      assert SameIds(list[i], checked[i]) && list[i].ca.meta.id == id;
    }
  }

  lemma EntriesAlike(list: seq<CaEntry<string>>, checked: seq<CaEntry<Bytes>>, cas: map<string, StoredCa>,
                     certs: map<string, StoredCert>, c: Codec, now: int)
    requires CheckEntries(list, c) == Some(checked)
    ensures |checked| == |list| && UnderTheirCas(checked) && (EntriesApart(checked) <==> EntriesApart(list))
    ensures EntriesIn(checked, cas, certs, now) ==>
      && (forall id :: id in cas ==> HasCa(list, id)) && (forall id :: id in certs ==> HasCertIn(list, id))
      && (forall i :: 0 <= i < |list| ==>
            && list[i].ca.meta.id in cas && CaBecomes(list[i].ca, cas[list[i].ca.meta.id], c, now)
            && CertsRestored(list[i].certs, certs, c, now))
  {
    hide CheckEntry, CheckEntries, EntryFine, CaBecomes, CertBecomes, RestoredCa, RestoredCert, EntriesApart;
    EntriesCheck(list, c);
    forall i | 0 <= i < |list|
      ensures SameIds(list[i], checked[i]) && CaBecomes(list[i].ca, RestoredCa(checked[i].ca, now), c, now)
      ensures CertsIn(checked[i].certs, certs, now) ==> CertsRestored(list[i].certs, certs, c, now)
    {
      EntriesChecked(list, c, i);
      EntryAlike(list[i], checked[i], c, now);
    }
    ApartAlike(list, checked);
    forall id ensures (HasCertIn(checked, id) ==> HasCertIn(list, id)) && (HasCa(checked, id) ==> HasCa(list, id)) {
      HasCertAlike(list, checked, id);
    }
    hide SameIds, HasCertIn, HasCa, CertsIn, CertsRestored;
  }

  /**
   Restoring a file into an empty database succeeds exactly when every row passes its check and no id or name repeats,
   and then the database holds exactly the file's rows, each in its stored form.
   */
  lemma RestoreExactly(file: Snapshot<string>, c: Codec, now: int)
    ensures var r := RestoreFile(file, c, now);
      && (r.Some? <==> FileFine(file, c) && NoClashes(file))
      && (r.Some? ==> Restored(file, r.value, c, now))
  {
    hide FileFine, CheckUsers, CheckTemplates, CheckEntries, AddUsers, AddTemplates, AddEntries, UsersIn, TemplatesIn,
      EntriesIn, UsersApart, TemplatesApart, CheckedApart, EntriesApart, UnderTheirCas, HasUser, HasTemplate, HasCa,
      HasCertIn, UserBecomes, TemplateBecomes, CaBecomes, CertsRestored;
    FileChecks(file, c);
    if ToSnapshot(file, c).Some? {
      var s := ToSnapshot(file, c).value;
      UsersInserted(EMPTY, s.users, now);
      UsersAlike(file.users, s.users, map[], now);
      TemplatesAlike(file.templates, s.templates, map[], c);
      EntriesAlike(file.cas, s.cas, map[], map[], c, now);
      if UsersApart(file.users) {
        var withUsers := AddUsers(EMPTY, s.users, now).value;
        UsersAlike(file.users, s.users, withUsers.users, now);
        TemplatesInserted(withUsers, s.templates);
        if TemplatesApart(file.templates) {
          var withTemplates := AddTemplates(withUsers, s.templates).value;
          TemplatesAlike(file.templates, s.templates, withTemplates.templates, c);
          EntriesInserted(withTemplates, s.cas, now);
          if EntriesApart(file.cas) {
            var after := AddEntries(withTemplates, s.cas, now).value;
            EntriesAlike(file.cas, s.cas, after.cas, after.certs, c, now);
          }
        }
      }
    }
  }
}
