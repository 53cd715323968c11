/** The DER writers of src/pkcs12.rs, and a reader for what they write (X.690, definite lengths only). */
module Der {
  import opened Wrappers
  import opened ByteStrings

  // ----- big-endian numbers -----

  function Pow256(n: nat): (p: nat)
    ensures p > 0
  {
    if n == 0 then 1 else 256 * Pow256(n - 1)
  }

  function Value(b: Bytes): nat {
    if b == [] then 0 else 256 * Value(b[..|b| - 1]) + b[|b| - 1]
  }

  /** `to_be_bytes` of a `width`-byte unsigned number. */
  function ToBe(n: nat, width: nat): (b: Bytes)
    ensures |b| == width
  {
    if width == 0 then [] else ToBe(n / 256, width - 1) + [n % 256]
  }

  function SkipZeros(b: Bytes): (r: Bytes)
    ensures |r| <= |b| && r == b[|b| - |r|..]
    ensures r != [] ==> r[0] != 0
  {
    if b != [] && b[0] == 0 then SkipZeros(b[1..]) else b
  }

  lemma {:induction false} ToBeValue(n: nat, width: nat)
    requires n < Pow256(width)
    ensures Value(ToBe(n, width)) == n
  {
    if width > 0 {
      ToBeValue(n / 256, width - 1);
      assert ToBe(n, width)[..width - 1] == ToBe(n / 256, width - 1);
    }
  }

  lemma {:induction false} LeadingZero(b: Bytes)
    requires b != [] && b[0] == 0
    ensures Value(b) == Value(b[1..])
  {
    if |b| > 1 {
      LeadingZero(b[..|b| - 1]);
      assert b[..|b| - 1][1..] == b[1..][..|b| - 2];
    }
  }

  lemma {:induction false} SkipZerosValue(b: Bytes)
    ensures Value(SkipZeros(b)) == Value(b)
  {
    if b != [] && b[0] == 0 {
      SkipZerosValue(b[1..]);
      LeadingZero(b);
    }
  }

  lemma {:induction false} ValueBound(b: Bytes)
    ensures Value(b) < Pow256(|b|)
    ensures b != [] && b[0] != 0 ==> Pow256(|b| - 1) <= Value(b)
  {
    if |b| > 0 {
      ValueBound(b[..|b| - 1]);
      if |b| == 1 {
        assert Value(b[..0]) == 0;
      }
    }
  }

  /** Numbers written without leading zeros are equal byte by byte when their values are. */
  lemma {:induction false} MinimalIsUnique(a: Bytes, b: Bytes)
    requires (a != [] ==> a[0] != 0) && (b != [] ==> b[0] != 0) && Value(a) == Value(b)
    ensures a == b
  {
    if a != [] {
      ValueBound(a);
    }
    if b != [] {
      ValueBound(b);
    }
    if a != [] && b != [] {
      MinimalIsUnique(a[..|a| - 1], b[..|b| - 1]);
      assert a == a[..|a| - 1] + [a[|a| - 1]] && b == b[..|b| - 1] + [b[|b| - 1]];
    }
  }

  // ----- tag, length, value -----

  lemma UsizeIsEightBytes()
    ensures Pow256(8) == USIZE && Pow256(4) == 0x1_0000_0000
  {
    assert Pow256(2) == 0x1_0000;
    assert Pow256(4) == 0x1_0000_0000;
    assert Pow256(6) == 0x1_0000_0000_0000;
  }

  function LengthBytes(n: nat): Bytes {
    SkipZeros(ToBe(n, 8))
  }

  function Header(n: nat): Bytes {
    if n < 0x80 then [n] else [0x80 + |LengthBytes(n)|] + LengthBytes(n)
  }

  function Tlv(tag: byte, content: Bytes): Bytes {
    [tag] + Header(|content|) + content
  }

  /** `to_be_bytes` without its leading zeros. */
  method WriteMinimal(n: nat, width: nat) returns (out: Bytes)
    ensures out == SkipZeros(ToBe(n, width))
  {
    out := ToBe(n, width);
    while out != [] && out[0] == 0
      invariant SkipZeros(out) == SkipZeros(ToBe(n, width))
    {
      out := out[1..];
    }
  }

  method WriteTlv(tag: byte, content: Bytes) returns (out: Bytes)
    ensures out == Tlv(tag, content)
  {
    hide ToBe, SkipZeros;
    out := [tag];
    if |content| < 0x80 {
      out := out + [|content|];
    } else {
      var bytes := WriteMinimal(|content|, 8);
      out := out + [0x80 + |bytes|];
      out := out + bytes;
      assert out == [tag] + Header(|content|);
    }
    out := out + content;
  }

  /** The length at the start of `b` and the size of its encoding; only the minimal form is DER. */
  function ReadLength(b: Bytes): (r: Option<(nat, nat)>)
    ensures r.Some? ==> r.value.1 <= |b|
  {
    if b == [] then None
    else if b[0] < 0x80 then Some((b[0], 1))
    else
      var k := b[0] - 0x80;
      if k == 0 || |b| < 1 + k || b[1] == 0 || Value(b[1..1 + k]) < 0x80 then None
      else Some((Value(b[1..1 + k]), 1 + k))
  }

  /** The first element of `b`: its tag, its content and the bytes after it. */
  function Read(b: Bytes): (r: Option<(byte, Bytes, Bytes)>)
    ensures r.Some? ==> |r.value.1| + |r.value.2| < |b|
  {
    if b == [] then None
    else
      var (n, k) :- ReadLength(b[1..]);
      if |b| < 1 + k + n then None else Some((b[0], b[1 + k..1 + k + n], b[1 + k + n..]))
  }

  lemma LengthBytesValue(n: nat)
    requires n < USIZE
    ensures Value(LengthBytes(n)) == n && |LengthBytes(n)| <= 8
    ensures n > 0 ==> LengthBytes(n) != []
  {
    UsizeIsEightBytes();
    ToBeValue(n, 8);
    SkipZerosValue(ToBe(n, 8));
  }

  lemma ReadHeader(n: nat, rest: Bytes)
    requires n < USIZE
    ensures ReadLength(Header(n) + rest) == Some((n, |Header(n)|))
  {
    if n >= 0x80 {
      LengthBytesValue(n);
      var k := |LengthBytes(n)|;
      assert (Header(n) + rest)[1..1 + k] == LengthBytes(n);
    }
  }

  /** Reading back what was written, whatever follows it. */
  lemma ReadTlv(tag: byte, content: Bytes, rest: Bytes)
    requires |content| < USIZE
    ensures Read(Tlv(tag, content) + rest) == Some((tag, content, rest))
  {
    hide ReadLength, Header;
    var b := Tlv(tag, content) + rest;
    assert b[1..] == Header(|content|) + (content + rest);
    ReadHeader(|content|, content + rest);
    var k := |Header(|content|)|;
    assert b[1 + k..1 + k + |content|] == content;
    assert b[1 + k + |content|..] == rest;
  }

  lemma ReadLengthIsCanonical(b: Bytes)
    requires ReadLength(b).Some? && ReadLength(b).value.0 < USIZE
    ensures b[..ReadLength(b).value.1] == Header(ReadLength(b).value.0)
  {
    hide Value, LengthBytes;
    var (n, k) := ReadLength(b).value;
    if b[0] >= 0x80 {
      assert Value(b[1..k]) == n && b[1..k] != [] && b[1..k][0] != 0;
      LengthBytesAreMinimal(n);
      MinimalIsUnique(b[1..k], LengthBytes(n));
      assert b[..k] == [b[0]] + b[1..k];
    }
  }

  lemma LengthBytesAreMinimal(n: nat)
    requires n < USIZE
    ensures Value(LengthBytes(n)) == n && (LengthBytes(n) != [] ==> LengthBytes(n)[0] != 0)
  {
    hide Value, ToBe, Pow256;
    LengthBytesValue(n);
    SkipZerosValue(ToBe(n, 8));
  }

  /** There is one encoding only: whatever the reader accepts is what the writer writes. */
  lemma ReadIsCanonical(b: Bytes)
    requires Read(b).Some? && |b| < USIZE
    ensures var (tag, content, rest) := Read(b).value;
      b == Tlv(tag, content) + rest
  {
    hide ReadLength, Header;
    var (n, k) := ReadLength(b[1..]).value;
    ReadLengthIsCanonical(b[1..]);
    var head := b[1..][..k];
    assert b == [b[0]] + head + b[1 + k..1 + k + n] + b[1 + k + n..];
  }

  lemma TlvLonger(tag: byte, content: Bytes)
    ensures |Tlv(tag, content)| > |content| + 1
  {
  }

  /** No encoding is a proper prefix of another. */
  lemma TlvIsPrefixFree(t1: byte, c1: Bytes, t2: byte, c2: Bytes)
    requires |c1| < USIZE && |c2| < USIZE && Tlv(t1, c1) <= Tlv(t2, c2)
    ensures Tlv(t1, c1) == Tlv(t2, c2)
  {
    var rest := Tlv(t2, c2)[|Tlv(t1, c1)|..];
    assert Tlv(t2, c2) == Tlv(t1, c1) + rest;
    ReadTlv(t1, c1, rest);
    ReadTlv(t2, c2, []);
    assert Tlv(t2, c2) + [] == Tlv(t2, c2);
  }

  // ----- INTEGER -----

  function IntegerContent(value: nat): Bytes {
    var bytes := SkipZeros(ToBe(value, 4));
    if bytes == [] || bytes[0] >= 0x80 then [0] + bytes else bytes
  }

  function Integer(value: nat): Bytes {
    Tlv(0x02, IntegerContent(value))
  }

  /** A non-negative INTEGER in the fewest octets (section 8.3 of X.690). */
  function ReadInteger(content: Bytes): Option<nat> {
    if content == [] || content[0] >= 0x80 then None
    else if |content| > 1 && content[0] == 0 && content[1] < 0x80 then None
    else Some(Value(content))
  }

  lemma ReadIntegerContent(value: nat)
    requires value < 0x1_0000_0000
    ensures ReadInteger(IntegerContent(value)) == Some(value) && |IntegerContent(value)| <= 5
  {
    hide ToBe, SkipZeros, Pow256, Value;
    UsizeIsEightBytes();
    ToBeValue(value, 4);
    SkipZerosValue(ToBe(value, 4));
    var bytes := SkipZeros(ToBe(value, 4));
    LeadingZero([0] + bytes);
    assert ([0] + bytes)[1..] == bytes;
  }

  // ----- OBJECT IDENTIFIER -----

  /** The continuation octets of a subidentifier, most significant first. */
  function ArcHigh(n: nat): Bytes {
    if n == 0 then [] else ArcHigh(n / 128) + [0x80 + n % 128]
  }

  function Arc(n: nat): Bytes {
    ArcHigh(n / 128) + [n % 128]
  }

  function ArcsBody(subids: seq<nat>): Bytes {
    if subids == [] then [] else ArcsBody(subids[..|subids| - 1]) + Arc(subids[|subids| - 1])
  }

  function Subids(arcs: seq<nat>): seq<nat>
    requires |arcs| >= 2
  {
    [arcs[0] * 40 + arcs[1]] + arcs[2..]
  }

  function Oid(arcs: seq<nat>): Bytes
    requires |arcs| >= 2
  {
    Tlv(0x06, ArcsBody(Subids(arcs)))
  }

  function Reverse(b: Bytes): (r: Bytes)
    ensures |r| == |b|
  {
    if b == [] then [] else Reverse(b[1..]) + [b[0]]
  }

  lemma {:induction false} ReverseAppend(b: Bytes, x: byte)
    ensures Reverse(b + [x]) == [x] + Reverse(b)
  {
    if b != [] {
      assert (b + [x])[1..] == b[1..] + [x];
      ReverseAppend(b[1..], x);
    }
  }

  /** The octets are collected low end first and turned around. */
  method WriteOid(arcs: seq<nat>) returns (out: Bytes)
    requires |arcs| >= 2
    ensures out == Oid(arcs)
  {
    var body: Bytes := [];
    var subids := [arcs[0] * 40 + arcs[1]] + arcs[2..];
    for i := 0 to |subids|
      invariant body == ArcsBody(subids[..i])
    {
      var arc := subids[i];
      var chunk: Bytes := [arc % 128];
      var rest := arc / 128;
      while rest > 0
        invariant ArcHigh(rest) + Reverse(chunk) == Arc(arc)
      {
        ReverseAppend(chunk, 0x80 + rest % 128);
        assert ArcHigh(rest) + Reverse(chunk) == ArcHigh(rest / 128) + ([0x80 + rest % 128] + Reverse(chunk));
        chunk := chunk + [0x80 + rest % 128];
        rest := rest / 128;
      }
      body := body + Reverse(chunk);
      assert subids[..i + 1][..i] == subids[..i];
    }
    assert subids[..|subids|] == subids;
    out := WriteTlv(0x06, body);
  }

  /** One subidentifier, with the value read so far. */
  function ReadArcFrom(b: Bytes, acc: nat): (r: Option<(nat, Bytes)>)
    ensures r.Some? ==> |r.value.1| < |b|
  {
    if b == [] then None
    else if b[0] < 0x80 then Some((acc * 128 + b[0], b[1..]))
    else ReadArcFrom(b[1..], acc * 128 + (b[0] - 0x80))
  }

  /** Subidentifiers in the fewest octets: none starts with 0x80 (section 8.19 of X.690). */
  function ReadSubids(b: Bytes): Option<seq<nat>>
    decreases |b|
  {
    if b == [] then Some([])
    else if b[0] == 0x80 then None
    else
      var (n, rest) :- ReadArcFrom(b, 0);
      var more :- ReadSubids(rest);
      Some([n] + more)
  }

  function ReadOid(content: Bytes): Option<seq<nat>> {
    var subids :- ReadSubids(content);
    if subids == [] then None
    else
      var n := subids[0];
      var first := if n < 40 then 0 else if n < 80 then 1 else 2;
      Some([first, n - 40 * first] + subids[1..])
  }

  lemma {:induction false} ReadArcHigh(n: nat, tail: Bytes)
    ensures ReadArcFrom(ArcHigh(n) + tail, 0) == ReadArcFrom(tail, n)
    ensures n > 0 ==> ArcHigh(n) != [] && ArcHigh(n)[0] > 0x80
  {
    if n == 0 {
      assert ArcHigh(n) + tail == tail;
    } else {
      var x := 0x80 + n % 128;
      ReadArcHigh(n / 128, [x] + tail);
      assert ArcHigh(n) + tail == ArcHigh(n / 128) + ([x] + tail);
      assert ([x] + tail)[1..] == tail;
      assert (n / 128) * 128 + n % 128 == n;
      if n / 128 == 0 {
        assert ArcHigh(n / 128) == [];
      }
    }
  }

  lemma ReadArc(n: nat, rest: Bytes)
    ensures ReadArcFrom(Arc(n) + rest, 0) == Some((n, rest))
    ensures Arc(n) != [] && Arc(n)[0] != 0x80
  {
    hide ReadArcFrom, ArcHigh;
    ReadArcHigh(n / 128, [n % 128] + rest);
    ReadLastOctet(n % 128, rest, n / 128);
    assert Arc(n) + rest == ArcHigh(n / 128) + ([n % 128] + rest);
    assert n / 128 * 128 + n % 128 == n;
    if n / 128 == 0 {
      NoHighOctets();
    }
  }

  lemma ReadLastOctet(d: nat, rest: Bytes, acc: nat)
    requires d < 128
    ensures ReadArcFrom([d] + rest, acc) == Some((acc * 128 + d, rest))
  {
    assert ([d] + rest)[1..] == rest;
  }

  lemma NoHighOctets()
    ensures ArcHigh(0) == []
  {
  }

  lemma {:induction false} ArcsBodyHead(subids: seq<nat>)
    requires subids != []
    ensures ArcsBody(subids) == Arc(subids[0]) + ArcsBody(subids[1..])
  {
    var n := |subids|;
    if n > 1 {
      ArcsBodyHead(subids[..n - 1]);
      assert subids[..n - 1][1..] == subids[1..][..n - 2];
    } else {
      assert ArcsBody(subids[..0]) == [];
    }
  }

  lemma {:induction false} ReadArcsBody(subids: seq<nat>)
    ensures ReadSubids(ArcsBody(subids)) == Some(subids)
  {
    if subids != [] {
      ArcsBodyHead(subids);
      ReadArc(subids[0], ArcsBody(subids[1..]));
      ReadArcsBody(subids[1..]);
      assert ArcsBody(subids)[0] == Arc(subids[0])[0];
      assert subids == [subids[0]] + subids[1..];
    }
  }

  /**
   An OID decodes back exactly when its first arc is at most 2 and, below 2, its second arc is below 40;
   "0.40" and "1.0" are written alike.
   */
  lemma ReadOidExactly(arcs: seq<nat>)
    requires |arcs| >= 2
    ensures ReadOid(ArcsBody(Subids(arcs))) == Some(arcs) <==> arcs[0] <= 2 && (arcs[0] < 2 ==> arcs[1] < 40)
  {
    var subids := Subids(arcs);
    ReadArcsBody(subids);
    var n := arcs[0] * 40 + arcs[1];
    var back := ReadOid(ArcsBody(subids)).value;
    assert subids[0] == n && subids[1..] == arcs[2..];
    assert arcs == [arcs[0], arcs[1]] + arcs[2..];
  }

  /** The first octet of a header tells its length. */
  lemma HeaderLength(n: nat)
    ensures |Header(n)| == if Header(n)[0] < 0x80 then 1 else 1 + Header(n)[0] - 0x80
  {
  }

  lemma TlvIsInjective(tag: byte, a: Bytes, b: Bytes)
    requires Tlv(tag, a) == Tlv(tag, b)
    ensures a == b
  {
    hide Header;
    HeaderLength(|a|);
    HeaderLength(|b|);
    var (x, y) := (Tlv(tag, a), Tlv(tag, b));
    assert x[1] == Header(|a|)[0] && y[1] == Header(|b|)[0];
    assert x[1 + |Header(|a|)|..] == a && y[1 + |Header(|b|)|..] == b;
  }

  /** Which identifiers are written alike: those with the same arcs from the third on and the same first subidentifier. */
  lemma OidsCollideExactly(a: seq<nat>, b: seq<nat>)
    requires |a| >= 2 && |b| >= 2
    ensures Oid(a) == Oid(b) <==> a[0] * 40 + a[1] == b[0] * 40 + b[1] && a[2..] == b[2..]
  {
    hide Tlv, ArcsBody, ReadSubids;
    var (x, y) := (Subids(a), Subids(b));
    assert x[0] == a[0] * 40 + a[1] && x[1..] == a[2..] && y[0] == b[0] * 40 + b[1] && y[1..] == b[2..];
    assert x == [x[0]] + x[1..] && y == [y[0]] + y[1..];
    ReadArcsBody(x);
    ReadArcsBody(y);
    if Oid(a) == Oid(b) {
      TlvIsInjective(0x06, ArcsBody(x), ArcsBody(y));
    }
  }

  // ----- SET OF -----

  /** `Vec<u8>` order: byte by byte, a prefix first. */
  predicate LexLe(a: Bytes, b: Bytes) {
    if a == [] then true
    else if b == [] then false
    else if a[0] != b[0] then a[0] < b[0]
    else LexLe(a[1..], b[1..])
  }

  /** The order of section 11.6 of X.690: byte by byte, the shorter padded with zeros. */
  predicate PaddedLe(a: Bytes, b: Bytes)
    decreases |a| + |b|
  {
    if a == [] && b == [] then true
    else
      var x := if a == [] then 0 else a[0];
      var y := if b == [] then 0 else b[0];
      if x != y then x < y
      else PaddedLe(if a == [] then a else a[1..], if b == [] then b else b[1..])
  }

  lemma {:induction false} LexLeTotal(a: Bytes, b: Bytes)
    ensures LexLe(a, b) || LexLe(b, a)
    ensures LexLe(a, b) && LexLe(b, a) ==> a == b
  {
    if a != [] && b != [] {
      LexLeTotal(a[1..], b[1..]);
      assert a == [a[0]] + a[1..] && b == [b[0]] + b[1..];
    }
  }

  lemma {:induction false} LexLeTransitive(a: Bytes, b: Bytes, c: Bytes)
    requires LexLe(a, b) && LexLe(b, c)
    ensures LexLe(a, c)
  {
    if a != [] && b != [] && c != [] && a[0] == b[0] == c[0] {
      LexLeTransitive(a[1..], b[1..], c[1..]);
    }
  }

  lemma {:induction false} PaddedIsLex(a: Bytes, b: Bytes)
    requires a <= b || b <= a ==> a == b
    ensures PaddedLe(a, b) <==> LexLe(a, b)
  {
    if a != [] && b != [] && a[0] == b[0] {
      assert a == [a[0]] + a[1..] && b == [b[0]] + b[1..];
      PaddedIsLex(a[1..], b[1..]);
    } else if a == [] || b == [] {
      assert a == b;
    }
  }

  /** On encodings the two orders agree, because no encoding is a proper prefix of another. */
  lemma PaddedOrderIsByteOrder(t1: byte, c1: Bytes, t2: byte, c2: Bytes)
    requires |c1| < USIZE && |c2| < USIZE
    ensures PaddedLe(Tlv(t1, c1), Tlv(t2, c2)) <==> LexLe(Tlv(t1, c1), Tlv(t2, c2))
  {
    if Tlv(t1, c1) <= Tlv(t2, c2) {
      TlvIsPrefixFree(t1, c1, t2, c2);
    }
    if Tlv(t2, c2) <= Tlv(t1, c1) {
      TlvIsPrefixFree(t2, c2, t1, c1);
    }
    PaddedIsLex(Tlv(t1, c1), Tlv(t2, c2));
  }

  function Insert(x: Bytes, items: seq<Bytes>): (r: seq<Bytes>)
    ensures multiset(r) == multiset(items) + multiset{x}
  {
    if items == [] then [x]
    else if LexLe(x, items[0]) then [x] + items
    else
      assert items == [items[0]] + items[1..];
      [items[0]] + Insert(x, items[1..])
  }

  /** `items.sort()`. */
  function Sort(items: seq<Bytes>): (r: seq<Bytes>)
    ensures multiset(r) == multiset(items)
  {
    if items == [] then []
    else
      assert items == [items[0]] + items[1..];
      Insert(items[0], Sort(items[1..]))
  }

  ghost predicate Ordered(items: seq<Bytes>) {
    forall i, j :: 0 <= i < j < |items| ==> LexLe(items[i], items[j])
  }

  lemma {:induction false} InsertOrdered(x: Bytes, items: seq<Bytes>)
    requires Ordered(items)
    ensures Ordered(Insert(x, items))
  {
    if items != [] {
      if LexLe(x, items[0]) {
        forall j | 0 <= j < |items| ensures LexLe(x, items[j]) {
          if j > 0 {
            LexLeTransitive(x, items[0], items[j]);
          }
        }
      } else {
        LexLeTotal(x, items[0]);
        InsertOrdered(x, items[1..]);
        var r := Insert(x, items[1..]);
        forall j | 0 <= j < |r| ensures LexLe(items[0], r[j]) {
          assert r[j] in multiset(r);
          assert r[j] == x || r[j] in items[1..];
        }
      }
    }
  }

  lemma {:induction false} SortOrdered(items: seq<Bytes>)
    ensures Ordered(Sort(items))
  {
    if items != [] {
      SortOrdered(items[1..]);
      InsertOrdered(items[0], Sort(items[1..]));
    }
  }

  lemma LeastFirst(a: seq<Bytes>, x: Bytes)
    requires Ordered(a) && x in a
    ensures LexLe(a[0], x)
  {
    LexLeTotal(x, x);
    var i :| 0 <= i < |a| && a[i] == x;
  }

  lemma SameLeast(a: seq<Bytes>, b: seq<Bytes>)
    requires Ordered(a) && Ordered(b) && multiset(a) == multiset(b) && a != [] && b != []
    ensures a[0] == b[0]
  {
    hide LexLe;
    assert a[0] in multiset(b) && b[0] in multiset(a);
    LeastFirst(a, b[0]);
    LeastFirst(b, a[0]);
    LexLeTotal(a[0], b[0]);
  }

  lemma TailOrdered(a: seq<Bytes>)
    requires Ordered(a) && a != []
    ensures Ordered(a[1..])
  {
    hide LexLe;
  }

  lemma {:induction false} OrderedIsUnique(a: seq<Bytes>, b: seq<Bytes>)
    requires Ordered(a) && Ordered(b) && multiset(a) == multiset(b)
    ensures a == b
    decreases |a|
  {
    hide LexLe;
    assert |a| == |multiset(a)| == |b|;
    if a != [] {
      SameLeast(a, b);
      hide Ordered;
      assert a == [a[0]] + a[1..] && b == [b[0]] + b[1..];
      assert multiset(a[1..]) == multiset(a) - multiset{a[0]};
      assert multiset(b[1..]) == multiset(b) - multiset{b[0]};
      TailOrdered(a);
      TailOrdered(b);
      OrderedIsUnique(a[1..], b[1..]);
    }
  }

  function Concat(items: seq<Bytes>): Bytes {
    if items == [] then [] else items[0] + Concat(items[1..])
  }

  function Sequence(items: seq<Bytes>): Bytes {
    Tlv(0x30, Concat(items))
  }

  function SetOf(items: seq<Bytes>): Bytes {
    Tlv(0x31, Concat(Sort(items)))
  }

  /** A SET OF is written the same whatever order its elements come in. */
  lemma SetOfIgnoresOrder(a: seq<Bytes>, b: seq<Bytes>)
    requires multiset(a) == multiset(b)
    ensures SetOf(a) == SetOf(b)
  {
    SortOrdered(a);
    SortOrdered(b);
    OrderedIsUnique(Sort(a), Sort(b));
  }
}
