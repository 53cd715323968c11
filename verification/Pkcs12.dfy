/** The native truststore writer of src/pkcs12.rs (RFC 7292), with the hash function left open. */
module Pkcs12 {
  import opened Wrappers
  import opened ByteStrings
  import opened Der

  // ----- text as UTF-16 -----

  /** The UTF-16 code units of one character. */
  function Units(c: char): (u: seq<nat>)
    ensures 1 <= |u| <= 2 && forall i :: 0 <= i < |u| ==> u[i] < 0x1_0000
  {
    var n := c as int;
    if n < 0x1_0000 then [n] else [0xD800 + (n - 0x1_0000) / 1024, 0xDC00 + (n - 0x1_0000) % 1024]
  }

  function UnitBytes(u: nat): Bytes
    requires u < 0x1_0000
  {
    [u / 256, u % 256]
  }

  /** `encode_utf16().flat_map(u16::to_be_bytes)`. */
  function Utf16Be(text: string): Bytes {
    if text == "" then []
    else
      var u := Units(text[0]);
      UnitBytes(u[0]) + (if |u| == 2 then UnitBytes(u[1]) else []) + Utf16Be(text[1..])
  }

  function Unit(b: Bytes): (u: nat)
    requires |b| == 2
    ensures u < 0x1_0000
  {
    var high: nat := b[0];
    high * 256 + b[1]
  }

  function ReadUtf16Be(b: Bytes): Option<string> {
    if b == [] then Some("")
    else if |b| < 2 then None
    else
      var u := Unit(b[..2]);
      if 0xD800 <= u < 0xDC00 then
        if |b| < 4 || !(0xDC00 <= Unit(b[2..4]) < 0xE000) then None
        else
          var n := 0x1_0000 + (u - 0xD800) * 1024 + (Unit(b[2..4]) - 0xDC00);
          var more :- ReadUtf16Be(b[4..]);
          Some([n as char] + more)
      else if 0xDC00 <= u < 0xE000 then None
      else
        var more :- ReadUtf16Be(b[2..]);
        Some([u as char] + more)
  }

  lemma {:induction false} ReadUtf16(text: string)
    ensures ReadUtf16Be(Utf16Be(text)) == Some(text)
  {
    if text != "" {
      ReadUtf16(text[1..]);
      var b := Utf16Be(text);
      var u := Units(text[0]);
      assert b[..2] == UnitBytes(u[0]);
      if text[0] as int < 0x1_0000 {
        assert b[2..] == Utf16Be(text[1..]);
      } else {
        assert b[2..4] == UnitBytes(u[1]);
        var m := text[0] as int - 0x1_0000;
        assert (m / 1024) * 1024 + m % 1024 == m;
        assert b[4..] == Utf16Be(text[1..]);
      }
      assert text == [text[0]] + text[1..];
    }
  }

  /** The password with its two zero octets. */
  function BmpPassword(password: string): Bytes {
    Utf16Be(password) + [0, 0]
  }

  function CharBytes(c: char): Bytes {
    var u := Units(c);
    UnitBytes(u[0]) + (if |u| == 2 then UnitBytes(u[1]) else [])
  }

  lemma Utf16First(text: string)
    requires text != ""
    ensures Utf16Be(text) == CharBytes(text[0]) + Utf16Be(text[1..])
  {
  }

  /** The first character that is read, and its octets. */
  lemma ReadFirst(b: Bytes)
    requires b != [] && ReadUtf16Be(b).Some?
    ensures var text := ReadUtf16Be(b).value;
      && text != ""
      && var n := |CharBytes(text[0])|;
         n <= |b| && b[..n] == CharBytes(text[0]) && ReadUtf16Be(b[n..]) == Some(text[1..])
  {
    var text := ReadUtf16Be(b).value;
    var u := Unit(b[..2]);
    UnitOf(b[0], b[1]);
    assert b[..2] == [b[0], b[1]];
    if 0xD800 <= u < 0xDC00 {
      var low := Unit(b[2..4]);
      UnitOf(b[2], b[3]);
      assert b[2..4] == [b[2], b[3]];
      assert Units(text[0]) == [u, low];
      assert CharBytes(text[0]) == [b[0], b[1]] + [b[2], b[3]];
    } else {
      assert Units(text[0]) == [u];
    }
  }

  lemma UnitOf(high: byte, low: byte)
    ensures UnitBytes(Unit([high, low])) == [high, low]
  {
  }

  /** Octets that read as a text are the text's octets. */
  lemma {:induction false} Utf16IsUnique(b: Bytes)
    ensures ReadUtf16Be(b).Some? ==> b == Utf16Be(ReadUtf16Be(b).value)
    decreases |b|
  {
    hide Utf16Be, CharBytes;
    if ReadUtf16Be(b).Some? {
      if b == [] {
        Utf16Nothing();
      } else {
        hide ReadUtf16Be;
        ReadFirst(b);
        var text := ReadUtf16Be(b).value;
        var n := |CharBytes(text[0])|;
        CharBytesSome(text[0]);
        Utf16IsUnique(b[n..]);
        Utf16First(text);
        assert b == b[..n] + b[n..];
      }
    }
  }

  lemma CharBytesSome(c: char)
    ensures CharBytes(c) != []
  {
  }

  lemma {:induction false} Utf16Append(a: string, b: string)
    ensures Utf16Be(a + b) == Utf16Be(a) + Utf16Be(b)
  {
    hide Utf16Be, CharBytes;
    if a == "" {
      Utf16Nothing();
      assert a + b == b;
    } else {
      Utf16Append(a[1..], b);
      assert (a + b)[1..] == a[1..] + b && (a + b)[0] == a[0];
      Utf16First(a);
      Utf16First(a + b);
      Append(CharBytes(a[0]), Utf16Be(a[1..]), Utf16Be(b));
    }
  }

  lemma Utf16Nothing()
    ensures Utf16Be("") == []
  {
  }

  /** The password's octets are those, and the only ones, that read as the password and a terminating zero. */
  lemma PasswordIsTerminated(password: string, b: Bytes)
    ensures b == BmpPassword(password) <==> ReadUtf16Be(b) == Some(password + "\0")
  {
    var text := password + "\0";
    Utf16Append(password, "\0");
    assert Utf16Be("\0") == [0, 0] by {
      assert "\0"[1..] == "";
    }
    hide Utf16Be, ReadUtf16Be;
    ReadUtf16(text);
    Utf16IsUnique(b);
  }

  // ----- key derivation -----

  type Digest = b: Bytes | |b| == 32 witness ToBe(0, 32)

  const U := 32
  const V := 64

  /** `src` repeated up to a whole number of V-byte blocks; nothing for nothing. */
  function Fill(src: Bytes): (r: Bytes)
    ensures |r| % V == 0 && |src| <= |r| < |src| + V
    ensures forall i :: 0 <= i < |r| ==> r[i] == src[i % |src|]
  {
    var n := V * ((|src| + V - 1) / V);
    seq(n, i requires 0 <= i < n => src[i % |src|])
  }

  /** (I_j + B + 1) mod 2^(8 |B|), as step 6.C of appendix B.2 writes it. */
  function AddPlusOne(block: Bytes, b: Bytes): Bytes {
    ToBe((Value(block) + Value(b) + 1) % Pow256(|b|), |b|)
  }

  function NextInput(i: Bytes, b: Bytes): (r: Bytes)
    requires |b| == V && |i| % V == 0
    ensures |r| == |i|
  {
    if i == [] then [] else AddPlusOne(i[..V], b) + NextInput(i[V..], b)
  }

  function Iterate(h: Bytes -> Digest, a: Digest, times: nat): Digest {
    if times == 0 then a else h(Iterate(h, a, times - 1))
  }

  /** B is A repeated up to V bytes. */
  function Repeated(a: Digest): (b: Bytes)
    ensures |b| == V
  {
    a + a
  }

  /** A_i: the hash of D || I, hashed `iterations` times in all (once when told zero). */
  function Block(h: Bytes -> Digest, id: byte, i: Bytes, iterations: nat): Digest {
    Iterate(h, h(seq(V, _ => id) + i), if iterations == 0 then 0 else iterations - 1)
  }

  /** A_1 || ... || A_n. */
  function Blocks(h: Bytes -> Digest, id: byte, i: Bytes, iterations: nat, n: nat): (out: Bytes)
    requires |i| % V == 0
    ensures |out| == U * n
    decreases n
  {
    if n == 0 then []
    else
      var a := Block(h, id, i, iterations);
      a + Blocks(h, id, NextInput(i, Repeated(a)), iterations, n - 1)
  }

  /** Appendix B.2 of RFC 7292. */
  function Kdf(h: Bytes -> Digest, password: Bytes, salt: Bytes, id: byte, iterations: nat, len: nat): (out: Bytes)
    ensures |out| == len
  {
    Blocks(h, id, Fill(salt) + Fill(password), iterations, (len + U - 1) / U)[..len]
  }

  lemma {:induction false} ValueHead(x: byte, b: Bytes)
    ensures Value([x] + b) == x * Pow256(|b|) + Value(b)
  {
    if b == [] {
      assert ([x] + b)[..0] == [];
    } else {
      var init := b[..|b| - 1];
      ValueHead(x, init);
      assert ([x] + b)[..|b|] == [x] + init;
      assert x * Pow256(|b|) == 256 * (x * Pow256(|b| - 1));
    }
  }

  lemma {:induction false} ToBeOfValue(b: Bytes)
    ensures ToBe(Value(b), |b|) == b
  {
    if b != [] {
      ToBeOfValue(b[..|b| - 1]);
      assert b == b[..|b| - 1] + [b[|b| - 1]];
    }
  }

  /** One digit of the addition, on the values of the digits to its right. */
  lemma CarryStep(x: nat, y: nat, carry: nat, x': nat, carry': nat, p: nat, s: nat, s': nat, t: nat)
    requires x' + 256 * carry' == x + y + carry && s' + carry * p == s + t + 1
    ensures (x' * p + s') + carry' * (256 * p) == (x * p + s) + (y * p + t) + 1
  {
    assert (x' + 256 * carry') * p == (x + y + carry) * p;
    assert (x' + 256 * carry') * p == x' * p + carry' * (256 * p);
    assert (x + y + carry) * p == x * p + y * p + carry * p;
  }

  /** The last |xs| digits are added: `zs` and `carry` are their sum plus one. */
  ghost predicate SumSoFar(xs: Bytes, ys: Bytes, zs: Bytes, carry: nat) {
    |xs| == |ys| == |zs| && Value(zs) + carry * Pow256(|xs|) == Value(xs) + Value(ys) + 1
  }

  lemma DigitStep(x: byte, xs: Bytes, y: byte, ys: Bytes, carry: nat, z: byte, zs: Bytes, carry': nat)
    requires z + 256 * carry' == x + y + carry && SumSoFar(xs, ys, zs, carry)
    ensures SumSoFar([x] + xs, [y] + ys, [z] + zs, carry')
  {
    hide Value;
    ValueHead(x, xs);
    ValueHead(y, ys);
    ValueHead(z, zs);
    var p := Pow256(|xs|);
    assert Pow256(|xs| + 1) == 256 * p;
    hide Pow256;
    CarryStep(x, y, carry, z, carry', p, Value(xs), Value(zs), Value(ys));
  }

  lemma SumIsAddPlusOne(before: Bytes, b: Bytes, after: Bytes, carry: nat)
    requires SumSoFar(before, b, after, carry)
    ensures after == AddPlusOne(before, b)
  {
    hide Pow256, Value, ToBe;
    var p := Pow256(|b|);
    ValueBound(after);
    ToBeOfValue(after);
    RemainderIs(Value(before) + Value(b) + 1, p, carry, Value(after));
  }

  lemma RemainderIs(n: nat, p: nat, q: nat, r: nat)
    requires n == q * p + r && r < p
    ensures n % p == r
  {
    var d: int := q - n / p;
    assert d * p == n % p - r by {
      assert d * p == q * p - (n / p) * p;
    }
    SmallMultiple(d, p);
  }

  lemma SmallMultiple(d: int, p: int)
    requires -p < d * p < p
    ensures d == 0
  {
    assert d >= 1 ==> d * p >= p;
    assert d <= -1 ==> d * p <= -p;
  }

  lemma SumStarts(before: Bytes, b: Bytes)
    requires |before| == |b|
    ensures SumSoFar(before[|b|..], b[|b|..], [], 1)
  {
    assert before[|b|..] == [] && b[|b|..] == [];
  }

  lemma SumGrows(before: Bytes, b: Bytes, after: Bytes, k: nat, carry: nat, digit: byte, carry': nat)
    requires k < |before| == |b| && SumSoFar(before[k + 1..], b[k + 1..], after, carry)
    requires digit + 256 * carry' == before[k] + b[k] + carry
    ensures SumSoFar(before[k..], b[k..], [digit] + after, carry')
  {
    hide SumSoFar;
    assert before[k..] == [before[k]] + before[k + 1..] && b[k..] == [b[k]] + b[k + 1..];
    DigitStep(before[k], before[k + 1..], b[k], b[k + 1..], carry, digit, after, carry');
  }

  /** The carry loop over one block, in place. No partial sum exceeds 511, so a u16 never overflows. */
  method AddToBlock(i: array<byte>, start: nat, b: Bytes)
    requires start + |b| <= i.Length
    modifies i
    ensures i[start..start + |b|] == AddPlusOne(old(i[start..start + |b|]), b)
    ensures forall j :: 0 <= j < start || start + |b| <= j < i.Length ==> i[j] == old(i[j])
  {
    ghost var before := i[start..start + |b|];
    ghost var after: Bytes := [];
    hide SumSoFar, AddPlusOne;
    SumStarts(before, b);
    var carry: nat := 1;
    var k := |b|;
    while k > 0
      invariant 0 <= k <= |b| && carry <= 1 && |after| == |b| - k
      invariant forall j :: 0 <= j < start + k || start + |b| <= j < i.Length ==> i[j] == old(i[j])
      invariant forall j :: start + k <= j < start + |b| ==> i[j] == after[j - start - k]
      invariant SumSoFar(before[k..], b[k..], after, carry)
    {
      k := k - 1;
      var x, y := i[start + k], b[k];
      var sum := x + y + carry;
      assert sum <= 511;
      i[start + k] := sum % 256;
      SumGrows(before, b, after, k, carry, sum % 256, sum / 256);
      carry := sum / 256;
      after := [(sum % 256) as byte] + after;
    }
    assert before[0..] == before && b[0..] == b;
    SumIsAddPlusOne(before, b, after, carry);
    assert i[start..start + |b|] == after;
  }

  lemma {:induction false} NextInputBlocks(done: Bytes, todo: Bytes, b: Bytes)
    requires |b| == V && |done| % V == 0 && |todo| % V == 0
    ensures NextInput(done + todo, b) == NextInput(done, b) + NextInput(todo, b)
  {
    if done == [] {
      assert done + todo == todo;
    } else {
      NextInputBlocks(done[V..], todo, b);
      assert (done + todo)[..V] == done[..V] && (done + todo)[V..] == done[V..] + todo;
    }
  }

  method HashBlock(h: Bytes -> Digest, id: byte, i: Bytes, iterations: nat) returns (a: Digest)
    ensures a == Block(h, id, i, iterations)
  {
    ghost var first := h(seq(V, _ => id) + i);
    a := h(seq(V, _ => id) + i);
    var round := 1;
    while round < iterations
      invariant 1 <= round && (round <= iterations || (iterations == 0 && round == 1))
      invariant a == Iterate(h, first, round - 1)
    {
      a := h(a);
      round := round + 1;
    }
  }

  lemma BlocksStep(h: Bytes -> Digest, id: byte, i: Bytes, iterations: nat, n: nat)
    requires |i| % V == 0 && n > 0
    ensures var a := Block(h, id, i, iterations);
      Blocks(h, id, i, iterations, n) == a + Blocks(h, id, NextInput(i, Repeated(a)), iterations, n - 1)
  {
  }

  lemma Append(out: Bytes, a: Bytes, more: Bytes)
    ensures out + (a + more) == (out + a) + more
  {
  }

  /** How many more blocks bring `have` bytes up to `len`. */
  ghost function Needed(len: nat, have: nat): nat
    decreases len - have
  {
    if have < len then 1 + Needed(len, have + U) else 0
  }

  lemma {:induction false} NeededIs(len: nat, have: nat)
    ensures Needed(len, have) == if have < len then (len - have + U - 1) / U else 0
    decreases len - have
  {
    if have < len {
      NeededIs(len, have + U);
    }
  }

  /** `pkcs12_kdf`: the input blocks are updated in place. */
  method Pkcs12Kdf(h: Bytes -> Digest, password: Bytes, salt: Bytes, id: byte, iterations: nat, len: nat)
    returns (out: Bytes)
    ensures out == Kdf(h, password, salt, id, iterations, len)
  {
    hide NextInput, Fill, Blocks, Block, Repeated, Iterate;
    var filled := Fill(salt) + Fill(password);
    var i := new byte[|filled|](k requires 0 <= k < |filled| => filled[k]);
    ghost var input, left := filled, Needed(len, 0);
    NeededIs(len, 0);
    ghost var all := Blocks(h, id, filled, iterations, left);
    out := [];
    while |out| < len
      invariant left == Needed(len, |out|)
      invariant |input| == |filled| && i[..] == input
      invariant out + Blocks(h, id, input, iterations, left) == all
      decreases left
    {
      BlocksStep(h, id, input, iterations, left);
      var a := HashBlock(h, id, i[..], iterations);
      ghost var before := out;
      out := out + a;
      AddToBlocks(i, Repeated(a));
      left := left - 1;
      input := NextInput(input, Repeated(a));
      Append(before, a, Blocks(h, id, input, iterations, left));
    }
    assert out == all;
    out := out[..len];
  }

  lemma NothingMoves(b: Bytes)
    requires |b| == V
    ensures NextInput([], b) == []
  {
  }

  lemma OneBlockMoves(block: Bytes, b: Bytes)
    requires |b| == V && |block| == V
    ensures NextInput(block, b) == AddPlusOne(block, b)
  {
    hide AddPlusOne;
    assert block[..V] == block && block[V..] == [];
  }

  method AddToBlocks(i: array<byte>, b: Bytes)
    requires |b| == V && i.Length % V == 0
    modifies i
    ensures i[..] == NextInput(old(i[..]), b)
  {
    hide AddPlusOne, NextInput;
    ghost var before := i[..];
    var start := 0;
    NothingMoves(b);
    while start < i.Length
      invariant start <= i.Length && start % V == 0
      invariant i[..start] == NextInput(before[..start], b)
      invariant i[start..] == before[start..]
    {
      ghost var done := i[..start];
      ghost var block := before[start..start + V];
      assert block == before[start..][..V] == i[start..start + V];
      ghost var rest := i[start + V..];
      AddToBlock(i, start, b);
      NextInputBlocks(before[..start], block, b);
      OneBlockMoves(block, b);
      assert before[..start + V] == before[..start] + block;
      assert i[..start + V] == done + i[start..start + V];
      assert rest == before[start + V..] by {
        assert rest == before[start..][V..];
      }
      start := start + V;
    }
    assert before[..start] == before && i[..start] == i[..];
  }

  // ----- against the words of appendix B.2 -----

  /** The input blocks a derivation starts from: the salt and the password, each repeated to whole blocks. */
  ghost predicate StartsFrom(i: Bytes, salt: Bytes, password: Bytes) {
    var (s, p) := (64 * ((|salt| + 63) / 64), 64 * ((|password| + 63) / 64));
    && |i| == s + p
    && (forall k :: 0 <= k < s ==> i[k] == salt[k % |salt|])
    && (forall k :: 0 <= k < p ==> i[s + k] == password[k % |password|])
  }

  /** Each hash after the first is of the hash before it. */
  ghost predicate IsHashChain(h: Bytes -> Digest, first: Bytes, chain: seq<Digest>) {
    && chain != [] && chain[0] == h(first)
    && forall k :: 0 < k < |chain| ==> chain[k] == h(chain[k - 1])
  }

  /** Every 64-byte block has the hash, repeated to 64 bytes, and one added to it, modulo its size. */
  ghost predicate MovesOn(i: Bytes, a: Digest, i': Bytes) {
    && |i'| == |i|
    && forall j :: 0 <= j < |i| / 64 ==>
         Value(BlockAt(i', j)) == (Value(BlockAt(i, j)) + Value(a + a) + 1) % Pow256(64)
  }

  function BlockAt(i: Bytes, j: nat): Bytes
    requires j < |i| / 64
  {
    i[64 * j..64 * j + 64]
  }

  /** The rounds of a derivation: what each hashes, and its chain of hashes. */
  ghost predicate AreRounds(h: Bytes -> Digest, id: byte, iterations: nat, inputs: seq<Bytes>,
                            chains: seq<seq<Digest>>) {
    && |inputs| == |chains|
    && (forall n :: 0 <= n < |inputs| ==>
          && IsHashChain(h, seq(64, _ => id) + inputs[n], chains[n])
          && |chains[n]| == if iterations == 0 then 1 else iterations)
    && (forall n :: 0 < n < |inputs| ==> MovesOn(inputs[n - 1], chains[n - 1][|chains[n - 1]| - 1], inputs[n]))
  }

  lemma LaterBlock(i: Bytes, j: nat)
    requires 0 < j < |i| / 64
    ensures |i[64..]| / 64 == |i| / 64 - 1 && BlockAt(i[64..], j - 1) == BlockAt(i, j)
  {
    var (part, direct) := (BlockAt(i[64..], j - 1), BlockAt(i, j));
    forall k | 0 <= k < 64 ensures part[k] == direct[k] {
      assert part[k] == i[64..][64 * (j - 1) + k];
    }
  }

  lemma {:induction false} NextInputAt(i: Bytes, b: Bytes, j: nat)
    requires |b| == V && |i| % V == 0 && j < |i| / 64
    ensures BlockAt(NextInput(i, b), j) == AddPlusOne(BlockAt(i, j), b)
  {
    hide AddPlusOne;
    var next := NextInput(i, b);
    if j == 0 {
      assert next[..64] == AddPlusOne(i[..V], b);
    } else {
      NextInputAt(i[V..], b, j - 1);
      assert next[V..] == NextInput(i[V..], b);
      LaterBlock(next, j);
      LaterBlock(i, j);
    }
  }

  lemma NextInputMovesOn(i: Bytes, a: Digest)
    requires |i| % V == 0
    ensures MovesOn(i, a, NextInput(i, Repeated(a)))
  {
    hide NextInput, Value, ToBe, Pow256;
    var next := NextInput(i, Repeated(a));
    forall j | 0 <= j < |i| / 64
      ensures Value(BlockAt(next, j)) == (Value(BlockAt(i, j)) + Value(a + a) + 1) % Pow256(64)
    {
      NextInputAt(i, Repeated(a), j);
      ValueBound(a + a);
      ToBeValue((Value(BlockAt(i, j)) + Value(a + a) + 1) % Pow256(64), 64);
    }
  }

  lemma {:induction false} IterateIsChain(h: Bytes -> Digest, first: Bytes, times: nat) returns (chain: seq<Digest>)
    ensures IsHashChain(h, first, chain) && |chain| == times + 1 && chain[times] == Iterate(h, h(first), times)
  {
    if times == 0 {
      chain := [h(first)];
    } else {
      chain := IterateIsChain(h, first, times - 1);
      chain := chain + [Iterate(h, h(first), times)];
    }
  }

  lemma {:induction false} BlocksAreRounds(h: Bytes -> Digest, id: byte, i: Bytes, iterations: nat, n: nat)
    returns (inputs: seq<Bytes>, chains: seq<seq<Digest>>)
    requires |i| % V == 0
    ensures AreRounds(h, id, iterations, inputs, chains) && |inputs| == n && (n > 0 ==> inputs[0] == i)
    ensures forall k :: 0 <= k < U * n ==>
      Blocks(h, id, i, iterations, n)[k] == chains[k / 32][|chains[k / 32]| - 1][k % 32]
    decreases n
  {
    hide NextInput, MovesOn;
    if n == 0 {
      inputs, chains := [], [];
    } else {
      var a := Block(h, id, i, iterations);
      var next := NextInput(i, Repeated(a));
      var chain := IterateIsChain(h, seq(64, _ => id) + i, if iterations == 0 then 0 else iterations - 1);
      var inputs', chains' := BlocksAreRounds(h, id, next, iterations, n - 1);
      inputs, chains := [i] + inputs', [chain] + chains';
      NextInputMovesOn(i, a);
    }
  }

  lemma {:induction false} BlocksPrefix(h: Bytes -> Digest, id: byte, i: Bytes, iterations: nat, n: nat, m: nat)
    requires |i| % V == 0 && n <= m
    ensures Blocks(h, id, i, iterations, n) <= Blocks(h, id, i, iterations, m)
    decreases n
  {
    hide Block, NextInput;
    if n > 0 {
      var a := Block(h, id, i, iterations);
      BlocksPrefix(h, id, NextInput(i, Repeated(a)), iterations, n - 1, m - 1);
    }
  }

  /** A shorter key is the start of a longer one. */
  lemma KdfPrefix(h: Bytes -> Digest, password: Bytes, salt: Bytes, id: byte, iterations: nat, len: nat, more: nat)
    requires len <= more
    ensures Kdf(h, password, salt, id, iterations, len) <= Kdf(h, password, salt, id, iterations, more)
  {
    hide Blocks, Fill;
    BlocksPrefix(h, id, Fill(salt) + Fill(password), iterations, (len + U - 1) / U, (more + U - 1) / U);
  }

  lemma FilledStarts(salt: Bytes, password: Bytes)
    ensures StartsFrom(Fill(salt) + Fill(password), salt, password)
  {
    WholeBlocks(|salt|, |Fill(salt)|);
    WholeBlocks(|password|, |Fill(password)|);
  }

  lemma WholeBlocks(n: nat, filled: nat)
    requires filled % V == 0 && n <= filled < n + V
    ensures filled == 64 * ((n + 63) / 64)
  {
  }

  /**
   The derivation in the words of appendix B.2: byte k of the key is byte k mod 32 of the last hash of round k div 32,
   each round hashing 64 copies of the id and its input `iterations` times.
   */
  lemma KdfIsAppendixB2(h: Bytes -> Digest, password: Bytes, salt: Bytes, id: byte, iterations: nat, len: nat)
    returns (inputs: seq<Bytes>, chains: seq<seq<Digest>>)
    ensures AreRounds(h, id, iterations, inputs, chains) && |inputs| == (len + 31) / 32
    ensures len > 0 ==> StartsFrom(inputs[0], salt, password)
    ensures forall k :: 0 <= k < len ==>
      Kdf(h, password, salt, id, iterations, len)[k] == chains[k / 32][|chains[k / 32]| - 1][k % 32]
  {
    hide Blocks, Fill, IsHashChain, MovesOn;
    var i := Fill(salt) + Fill(password);
    FilledStarts(salt, password);
    inputs, chains := BlocksAreRounds(h, id, i, iterations, (len + U - 1) / U);
  }
}
