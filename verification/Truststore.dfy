/** The truststore of src/pkcs12.rs as a whole, against a reader written from RFC 7292. */
module Truststore {
  import opened Wrappers
  import opened ByteStrings
  import opened Der
  import opened Pkcs12

  const OID_DATA: seq<nat> := [1, 2, 840, 113549, 1, 7, 1]
  const OID_CERT_BAG: seq<nat> := [1, 2, 840, 113549, 1, 12, 10, 1, 3]
  const OID_X509_CERTIFICATE: seq<nat> := [1, 2, 840, 113549, 1, 9, 22, 1]
  const OID_FRIENDLY_NAME: seq<nat> := [1, 2, 840, 113549, 1, 9, 20]
  const OID_ORACLE_TRUSTED_KEY_USAGE: seq<nat> := [2, 16, 840, 1, 113894, 746875, 1, 1]
  const OID_ANY_EXTENDED_KEY_USAGE: seq<nat> := [2, 5, 29, 37, 0]
  const OID_SHA256: seq<nat> := [2, 16, 840, 1, 101, 3, 4, 2, 1]
  const NULL: Bytes := [0x05, 0x00]
  const MAC_ITERATIONS := 2048

  // ----- the writer -----

  function OctetString(b: Bytes): Bytes {
    Tlv(0x04, b)
  }

  function Explicit0(content: Bytes): Bytes {
    Tlv(0xa0, content)
  }

  function BmpString(text: string): Bytes {
    Tlv(0x1e, Utf16Be(text))
  }

  function Attribute(oid: seq<nat>, value: Bytes): Bytes
    requires |oid| >= 2
  {
    Sequence([Oid(oid), SetOf([value])])
  }

  function DataContentInfo(content: Bytes): Bytes {
    Sequence([Oid(OID_DATA), Explicit0(OctetString(content))])
  }

  function Attributes(alias: string): seq<Bytes> {
    [Attribute(OID_FRIENDLY_NAME, BmpString(alias)),
     Attribute(OID_ORACLE_TRUSTED_KEY_USAGE, Oid(OID_ANY_EXTENDED_KEY_USAGE))]
  }

  function CertBag(cert: Bytes): Bytes {
    Sequence([Oid(OID_X509_CERTIFICATE), Explicit0(OctetString(cert))])
  }

  function SafeBag(cert: Bytes, alias: string): Bytes {
    Sequence([Oid(OID_CERT_BAG), Explicit0(CertBag(cert)), SetOf(Attributes(alias))])
  }

  function AuthenticatedSafe(cert: Bytes, alias: string): Bytes {
    Sequence([DataContentInfo(Sequence([SafeBag(cert, alias)]))])
  }

  function MacData(mac: Bytes, salt: Bytes): Bytes {
    Sequence([Sequence([Sequence([Oid(OID_SHA256), NULL]), OctetString(mac)]), OctetString(salt),
              Integer(MAC_ITERATIONS)])
  }

  function Pfx(safe: Bytes, macData: Bytes): Bytes {
    Sequence([Integer(3), DataContentInfo(safe), macData])
  }

  /** The key the MAC is computed under. */
  function MacKey(h: Bytes -> Digest, password: string, salt: Bytes): Bytes {
    Kdf(h, BmpPassword(password), salt, 3, MAC_ITERATIONS, 32)
  }

  /** `truststore`, with the hash, the MAC and the drawn salt as parameters. */
  function Truststore(h: Bytes -> Digest, hmac: (Bytes, Bytes) -> Digest,
                      cert: Bytes, alias: string, password: string, salt: Bytes): Bytes {
    var safe := AuthenticatedSafe(cert, alias);
    Pfx(safe, MacData(hmac(MacKey(h, password, salt), safe), salt))
  }

  // ----- a reader for PFX (section 4 of RFC 7292), with the identifiers of the standards -----

  datatype Bag = Bag(cert: Bytes, alias: string, usage: seq<nat>)

  datatype Mac = Mac(digest: Bytes, salt: Bytes, iterations: nat)

  datatype Store = Store(bag: Bag, mac: Mac, maced: Bytes)

  /** The element at the start of `b`, which must carry `tag`. */
  function Take(tag: byte, b: Bytes): (r: Option<(Bytes, Bytes)>)
    ensures r.Some? ==> |r.value.0| + |r.value.1| < |b|
  {
    var (t, content, rest) :- Read(b);
    if t == tag then Some((content, rest)) else None
  }

  /** The element that is all of `b`. */
  function Only(tag: byte, b: Bytes): Option<Bytes> {
    var (content, rest) :- Take(tag, b);
    if rest == [] then Some(content) else None
  }

  function TakeOid(arcs: seq<nat>, b: Bytes): Option<Bytes> {
    var (content, rest) :- Take(0x06, b);
    if ReadOid(content) == Some(arcs) then Some(rest) else None
  }

  function ReadData(b: Bytes): Option<(Bytes, Bytes)> {
    var (info, rest) :- Take(0x30, b);
    var wrapped :- TakeOid([1, 2, 840, 113549, 1, 7, 1], info);
    var octets :- Only(0xa0, wrapped);
    var content :- Only(0x04, octets);
    Some((content, rest))
  }

  /** The value of the attribute named `arcs`, wherever it stands in the set. */
  function FindAttribute(arcs: seq<nat>, b: Bytes): Option<Bytes>
    decreases |b|
  {
    var (attribute, more) :- Take(0x30, b);
    var (name, values) :- Take(0x06, attribute);
    if ReadOid(name) == Some(arcs) then Only(0x31, values) else FindAttribute(arcs, more)
  }

  function ReadBag(b: Bytes): Option<Bag> {
    var bag :- Only(0x30, b);
    var afterKind :- TakeOid([1, 2, 840, 113549, 1, 12, 10, 1, 3], bag);
    var (wrapped, afterValue) :- Take(0xa0, afterKind);
    var certBag :- Only(0x30, wrapped);
    var certValue :- TakeOid([1, 2, 840, 113549, 1, 9, 22, 1], certBag);
    var octets :- Only(0xa0, certValue);
    var cert :- Only(0x04, octets);
    var attributes :- Only(0x31, afterValue);
    var name :- FindAttribute([1, 2, 840, 113549, 1, 9, 20], attributes);
    var units :- Only(0x1e, name);
    var alias :- ReadUtf16Be(units);
    var trusted :- FindAttribute([2, 16, 840, 1, 113894, 746875, 1, 1], attributes);
    var body :- Only(0x06, trusted);
    var usage :- ReadOid(body);
    Some(Bag(cert, alias, usage))
  }

  function ReadMac(b: Bytes): Option<Mac> {
    var macData :- Only(0x30, b);
    var (digestInfo, afterDigest) :- Take(0x30, macData);
    var (algorithm, digestOctets) :- Take(0x30, digestInfo);
    var parameters :- TakeOid([2, 16, 840, 1, 101, 3, 4, 2, 1], algorithm);
    var digest :- Only(0x04, digestOctets);
    var (salt, afterSalt) :- Take(0x04, afterDigest);
    var count :- Only(0x02, afterSalt);
    var iterations :- ReadInteger(count);
    if parameters == [0x05, 0x00] then Some(Mac(digest, salt, iterations)) else None
  }

  function ReadSafe(b: Bytes): Option<Bag> {
    var infos :- Only(0x30, b);
    var (contents, more) :- ReadData(infos);
    var bags :- Only(0x30, contents);
    if more == [] then ReadBag(bags) else None
  }

  /** The store at the start of `b`, and the bytes after it. */
  function ReadStore(b: Bytes): Option<(Store, Bytes)> {
    var (pfx, rest) :- Take(0x30, b);
    var (version, afterVersion) :- Take(0x02, pfx);
    var (maced, afterSafe) :- ReadData(afterVersion);
    var bag :- ReadSafe(maced);
    var mac :- ReadMac(afterSafe);
    if ReadInteger(version) == Some(3) then Some((Store(bag, mac, maced), rest)) else None
  }

  // ----- reading back what is written -----

  lemma Take1(tag: byte, content: Bytes, rest: Bytes)
    requires |content| < USIZE
    ensures Take(tag, Tlv(tag, content) + rest) == Some((content, rest))
    ensures Only(tag, Tlv(tag, content)) == Some(content)
  {
    hide Read, Tlv;
    ReadTlv(tag, content, rest);
    ReadTlv(tag, content, []);
    assert Tlv(tag, content) + [] == Tlv(tag, content);
  }

  /** The arcs every OID of a store has. */
  predicate Encodable(arcs: seq<nat>) {
    |arcs| >= 2 && arcs[0] <= 2 && (arcs[0] < 2 ==> arcs[1] < 40)
  }

  lemma TakeOid1(arcs: seq<nat>, rest: Bytes)
    requires Encodable(arcs) && |Oid(arcs)| < USIZE
    ensures TakeOid(arcs, Oid(arcs) + rest) == Some(rest)
    ensures Only(0x06, Oid(arcs)) == Some(ArcsBody(Subids(arcs))) && ReadOid(ArcsBody(Subids(arcs))) == Some(arcs)
  {
    hide ArcsBody, ReadOid, Take, Only;
    TlvLonger(0x06, ArcsBody(Subids(arcs)));
    Take1(0x06, ArcsBody(Subids(arcs)), rest);
    ReadOidExactly(arcs);
  }

  lemma Concats(x: Bytes, y: Bytes, z: Bytes)
    ensures Concat([x]) == x && Concat([x, y]) == x + y && Concat([x, y, z]) == x + (y + z)
  {
    assert [x][1..] == [];
    assert [x, y][1..] == [y];
    assert [y][1..] == [];
    assert [x, y, z][1..] == [y, z];
    assert [y, z][1..] == [z];
    assert [z][1..] == [];
    assert Concat([z]) == z;
    assert Concat([y, z]) == y + z;
  }

  /** A sequence of one, two or three elements, read element by element. */
  lemma TakeSequence(x: Bytes, y: Bytes, z: Bytes, rest: Bytes)
    requires |x| + |y| + |z| < USIZE
    ensures Take(0x30, Sequence([x]) + rest) == Some((x, rest)) && Only(0x30, Sequence([x])) == Some(x)
    ensures Take(0x30, Sequence([x, y]) + rest) == Some((x + y, rest)) && Only(0x30, Sequence([x, y])) == Some(x + y)
    ensures Take(0x30, Sequence([x, y, z]) + rest) == Some((x + (y + z), rest))
    ensures Only(0x30, Sequence([x, y, z])) == Some(x + (y + z))
  {
    hide Concat, Take, Only;
    Concats(x, y, z);
    Take1(0x30, x, rest);
    Take1(0x30, x + y, rest);
    Take1(0x30, x + (y + z), rest);
  }

  lemma ReadDataInfo(content: Bytes, rest: Bytes)
    requires |DataContentInfo(content)| < USIZE
    ensures ReadData(DataContentInfo(content) + rest) == Some((content, rest))
    ensures |content| < |DataContentInfo(content)|
  {
    hide Take, Only, TakeOid, Oid, Sequence, Concat;
    var oid, octets := Oid(OID_DATA), OctetString(content);
    SequenceLonger(oid, Explicit0(octets), []);
    TlvLonger(0x04, content);
    TlvLonger(0xa0, octets);
    TakeSequence(oid, Explicit0(octets), [], rest);
    TakeOid1(OID_DATA, Explicit0(octets));
    Take1(0xa0, octets, []);
    Take1(0x04, content, []);
  }

  lemma SequenceLonger(x: Bytes, y: Bytes, z: Bytes)
    ensures |x| < |Sequence([x])| && |x| + |y| < |Sequence([x, y])| && |x| + |y| + |z| < |Sequence([x, y, z])|
  {
    Concats(x, y, z);
  }

  lemma OidIs(arcs: seq<nat>)
    requires |arcs| >= 2
    ensures Oid(arcs) == Tlv(0x06, ArcsBody(Subids(arcs)))
  {
  }

  lemma FindFirst(arcs: seq<nat>, value: Bytes, more: Bytes)
    requires Encodable(arcs) && |Attribute(arcs, value)| < USIZE
    ensures FindAttribute(arcs, Attribute(arcs, value) + more) == Some(value)
    ensures |value| < |Attribute(arcs, value)|
  {
    hide Oid, Sequence, Concat, ArcsBody, ReadOid, Sort;
    var body := ArcsBody(Subids(arcs));
    SingleSet(value);
    SequenceLonger(Oid(arcs), SetOf([value]), []);
    TlvLonger(0x31, value);
    TakeSequence(Oid(arcs), SetOf([value]), [], more);
    OidIs(arcs);
    TlvLonger(0x06, body);
    Take1(0x06, body, SetOf([value]));
    Take1(0x31, value, []);
    TakeOid1(arcs, []);
  }

  lemma SingleSet(value: Bytes)
    ensures SetOf([value]) == Tlv(0x31, value)
  {
    Concats(value, [], []);
    assert Sort([value][1..]) == [];
    assert Sort([value]) == [value];
  }

  /** A set of two attributes, found by name in whichever order they were sorted. */
  lemma FindInSet(first: seq<nat>, x: Bytes, second: seq<nat>, y: Bytes)
    requires Encodable(first) && Encodable(second) && first != second
    requires |SetOf([Attribute(first, x), Attribute(second, y)])| < USIZE
    ensures var set2 := SetOf([Attribute(first, x), Attribute(second, y)]);
      && Only(0x31, set2).Some?
      && FindAttribute(first, Only(0x31, set2).value) == Some(x)
      && FindAttribute(second, Only(0x31, set2).value) == Some(y)
    ensures |x| + |y| < |SetOf([Attribute(first, x), Attribute(second, y)])|
  {
    hide Attribute, Sequence, FindAttribute, LexLe, Take, Only, Concat, Tlv;
    var a, b := Attribute(first, x), Attribute(second, y);
    var content := Concat(Sort([a, b]));
    TwoSorted(a, b);
    Concats(a, b, []);
    Concats(b, a, []);
    TlvLonger(0x31, content);
    Take1(0x31, content, []);
    FindFirst(first, x, []);
    FindFirst(first, x, b);
    FindFirst(second, y, []);
    FindFirst(second, y, a);
    SkipFirst(first, x, second, b);
    SkipFirst(second, y, first, a);
    assert a + [] == a && b + [] == b;
  }

  lemma TwoSorted(a: Bytes, b: Bytes)
    ensures Sort([a, b]) == [a, b] || Sort([a, b]) == [b, a]
  {
    assert [a, b][1..] == [b] && [b][1..] == [];
    assert Sort([b]) == [b];
    assert Insert(a, []) == [a];
  }

  lemma SkipFirst(arcs: seq<nat>, value: Bytes, other: seq<nat>, more: Bytes)
    requires Encodable(arcs) && arcs != other && |Attribute(arcs, value)| < USIZE
    ensures FindAttribute(other, Attribute(arcs, value) + more) == FindAttribute(other, more)
  {
    hide Oid, Sequence, Concat, ArcsBody, ReadOid, SetOf;
    var body := ArcsBody(Subids(arcs));
    SequenceLonger(Oid(arcs), SetOf([value]), []);
    TakeSequence(Oid(arcs), SetOf([value]), [], more);
    OidIs(arcs);
    TlvLonger(0x06, body);
    Take1(0x06, body, SetOf([value]));
    TakeOid1(arcs, []);
  }

  lemma ReadAttributes(alias: string)
    requires |SetOf(Attributes(alias))| < USIZE
    ensures var r := Only(0x31, SetOf(Attributes(alias)));
      && r.Some?
      && FindAttribute(OID_FRIENDLY_NAME, r.value) == Some(BmpString(alias))
      && FindAttribute(OID_ORACLE_TRUSTED_KEY_USAGE, r.value) == Some(Oid(OID_ANY_EXTENDED_KEY_USAGE))
    ensures |BmpString(alias)| + |Oid(OID_ANY_EXTENDED_KEY_USAGE)| < |SetOf(Attributes(alias))|
  {
    hide Attribute, FindAttribute, Only, Oid, SetOf;
    FindInSet(OID_FRIENDLY_NAME, BmpString(alias), OID_ORACLE_TRUSTED_KEY_USAGE, Oid(OID_ANY_EXTENDED_KEY_USAGE));
  }

  lemma ReadCertBag(cert: Bytes)
    requires |CertBag(cert)| < USIZE
    ensures Only(0x30, CertBag(cert)).Some?
    ensures var certValue := TakeOid(OID_X509_CERTIFICATE, Only(0x30, CertBag(cert)).value);
      certValue.Some? && Only(0xa0, certValue.value) == Some(OctetString(cert))
    ensures Only(0x04, OctetString(cert)) == Some(cert)
  {
    hide Take, Only, TakeOid, Oid, Sequence, Concat;
    var oid, octets := Oid(OID_X509_CERTIFICATE), OctetString(cert);
    SequenceLonger(oid, Explicit0(octets), []);
    TlvLonger(0x04, cert);
    TlvLonger(0xa0, octets);
    TakeSequence(oid, Explicit0(octets), [], []);
    TakeOid1(OID_X509_CERTIFICATE, Explicit0(octets));
    Take1(0xa0, octets, []);
    Take1(0x04, cert, []);
  }

  lemma ReadSafeBag(cert: Bytes, alias: string)
    requires |SafeBag(cert, alias)| < USIZE
    ensures ReadBag(SafeBag(cert, alias)) == Some(Bag(cert, alias, OID_ANY_EXTENDED_KEY_USAGE))
  {
    hide Take, Only, TakeOid, Oid, Sequence, Concat, FindAttribute, ReadOid, SetOf, CertBag, Utf16Be, ReadUtf16Be;
    var kind, attributes := Oid(OID_CERT_BAG), SetOf(Attributes(alias));
    var value := Explicit0(CertBag(cert));
    SequenceLonger(kind, value, attributes);
    TlvLonger(0xa0, CertBag(cert));
    TakeSequence(kind, value, attributes, []);
    TakeOid1(OID_CERT_BAG, value + attributes);
    Take1(0xa0, CertBag(cert), attributes);
    ReadCertBag(cert);
    ReadAttributes(alias);
    TlvLonger(0x1e, Utf16Be(alias));
    Take1(0x1e, Utf16Be(alias), []);
    ReadUtf16(alias);
    TakeOid1(OID_ANY_EXTENDED_KEY_USAGE, []);
  }

  lemma ReadAuthenticatedSafe(cert: Bytes, alias: string)
    requires |AuthenticatedSafe(cert, alias)| < USIZE
    ensures ReadSafe(AuthenticatedSafe(cert, alias)) == Some(Bag(cert, alias, OID_ANY_EXTENDED_KEY_USAGE))
  {
    hide ReadBag, SafeBag, ReadData, DataContentInfo, Sequence, Only;
    var bag := SafeBag(cert, alias);
    var contents := Sequence([bag]);
    SequenceLonger(DataContentInfo(contents), [], []);
    TakeSequence(DataContentInfo(contents), [], [], []);
    ReadDataInfo(contents, []);
    assert DataContentInfo(contents) + [] == DataContentInfo(contents);
    SequenceLonger(bag, [], []);
    TakeSequence(bag, [], [], []);
    ReadSafeBag(cert, alias);
  }

  lemma ReadMacData(mac: Bytes, salt: Bytes)
    requires |MacData(mac, salt)| < USIZE
    ensures ReadMac(MacData(mac, salt)) == Some(Mac(mac, salt, MAC_ITERATIONS))
  {
    hide Take, Only, TakeOid, Oid, Sequence, Concat, ReadInteger, IntegerContent, ReadOid;
    var algorithm := Sequence([Oid(OID_SHA256), NULL]);
    var digest, octets, count := OctetString(mac), OctetString(salt), IntegerContent(MAC_ITERATIONS);
    var info := Sequence([algorithm, digest]);
    SequenceLonger(info, octets, Integer(MAC_ITERATIONS));
    SequenceLonger(algorithm, digest, []);
    SequenceLonger(Oid(OID_SHA256), NULL, []);
    TlvLonger(0x04, mac);
    TlvLonger(0x04, salt);
    TlvLonger(0x02, count);
    TakeSequence(info, octets, Integer(MAC_ITERATIONS), []);
    TakeSequence(algorithm, digest, [], octets + Integer(MAC_ITERATIONS));
    TakeSequence(Oid(OID_SHA256), NULL, [], digest);
    TakeOid1(OID_SHA256, NULL);
    Take1(0x04, mac, []);
    Take1(0x04, salt, Integer(MAC_ITERATIONS));
    ReadIntegerContent(MAC_ITERATIONS);
    Take1(0x02, count, []);
  }

  /**
   A reader of the format gets back the certificate, the alias, the trusted usage, the salt, the 2048 iterations, the
   bytes the MAC covers and a MAC equal to the one it computes itself, from any octets that read as the password and a
   terminating zero, whatever bytes follow.
   */
  lemma ReadTruststore(h: Bytes -> Digest, hmac: (Bytes, Bytes) -> Digest,
                       cert: Bytes, alias: string, password: string, salt: Bytes, rest: Bytes, octets: Bytes)
    requires |Truststore(h, hmac, cert, alias, password, salt)| < USIZE
    requires ReadUtf16Be(octets) == Some(password + "\0")
    ensures var r := ReadStore(Truststore(h, hmac, cert, alias, password, salt) + rest);
      && r.Some? && r.value.1 == rest
      && r.value.0.bag == Bag(cert, alias, [2, 5, 29, 37, 0])
      && r.value.0.maced == AuthenticatedSafe(cert, alias) && ReadSafe(r.value.0.maced) == Some(r.value.0.bag)
      && r.value.0.mac.salt == salt && r.value.0.mac.iterations == 2048
      && r.value.0.mac.digest == hmac(Kdf(h, octets, salt, 3, 2048, 32), r.value.0.maced)
  {
    hide AuthenticatedSafe, MacData, Kdf, DataContentInfo, Sequence, ReadSafe, ReadMac, ReadData, Take, BmpPassword,
      IntegerContent, ReadInteger, ReadUtf16Be;
    PasswordIsTerminated(password, octets);
    var safe := AuthenticatedSafe(cert, alias);
    var mac := hmac(MacKey(h, password, salt), safe);
    var macData := MacData(mac, salt);
    SequenceLonger(Integer(3), DataContentInfo(safe), macData);
    TakeSequence(Integer(3), DataContentInfo(safe), macData, rest);
    ReadIntegerContent(3);
    Take1(0x02, IntegerContent(3), DataContentInfo(safe) + macData);
    ReadDataInfo(safe, macData);
    ReadAuthenticatedSafe(cert, alias);
    ReadMacData(mac, salt);
  }
}
