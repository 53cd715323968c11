/** Bytes, their hexadecimal digits, and UTF-8. */
module ByteStrings {
  import opened Wrappers

  type byte = x: int | 0 <= x < 256
  type Bytes = seq<byte>

  /** What an in-memory length is below. */
  const USIZE: nat := 0x1_0000_0000_0000_0000

  /** The value of an ASCII hexadecimal digit, given its code. */
  function HexDigitOf(code: nat): (d: Option<nat>)
    ensures d.Some? ==> d.value < 16
  {
    if 48 <= code <= 57 then Some(code - 48)
    else if 97 <= code <= 102 then Some(code - 87)
    else if 65 <= code <= 70 then Some(code - 55)
    else None
  }

  /** The upper-case digit for a value. */
  function HexByte(d: nat): byte
    requires d < 16
  {
    if d < 10 then 48 + d else 55 + d
  }

  lemma HexByteDigit(d: nat)
    requires d < 16
    ensures HexDigitOf(HexByte(d)) == Some(d) && HexByte(d) < 128
  {
  }

  /** The digits are the sixteen of either case, each with its value. */
  lemma HexDigitsExactly(code: nat, d: nat)
    requires d < 16
    ensures HexDigitOf(code) == Some(d)
            <==> code == "0123456789abcdef"[d] as int || code == "0123456789ABCDEF"[d] as int
  {
  }

  // ----- UTF-8 -----

  function Utf8Char(c: char): (b: Bytes)
    ensures 1 <= |b| <= 4
    ensures c as int < 128 ==> b == [c as int]
    ensures c as int >= 128 ==> forall i :: 0 <= i < |b| ==> b[i] >= 128
  {
    var n := c as int;
    if n < 0x80 then [n]
    else if n < 0x800 then [0xC0 + n / 64, 0x80 + n % 64]
    else if n < 0x1_0000 then [0xE0 + n / 4096, 0x80 + n / 64 % 64, 0x80 + n % 64]
    else [0xF0 + n / 262144, 0x80 + n / 4096 % 64, 0x80 + n / 64 % 64, 0x80 + n % 64]
  }

  function Utf8(s: string): Bytes {
    if s == "" then [] else Utf8Char(s[0]) + Utf8(s[1..])
  }

  lemma Utf8Cons(c: char, s: string)
    ensures Utf8([c] + s) == Utf8Char(c) + Utf8(s)
  {
    assert ([c] + s)[1..] == s;
  }

  lemma Utf8Nothing()
    ensures Utf8("") == []
  {
  }

  lemma {:induction false} Utf8Append(a: string, b: string)
    ensures Utf8(a + b) == Utf8(a) + Utf8(b)
  {
    hide Utf8, Utf8Char;
    if a == "" {
      Utf8Nothing();
      assert a + b == b;
    } else {
      var (head, tail) := (a[0], a[1..]);
      Utf8Append(tail, b);
      Utf8Cons(head, tail);
      Utf8Cons(head, tail + b);
      assert a == [head] + tail && a + b == [head] + (tail + b);
      Regroup(Utf8Char(head), Utf8(tail), Utf8(b));
    }
  }

  lemma Regroup(a: Bytes, b: Bytes, c: Bytes)
    ensures a + (b + c) == (a + b) + c
  {
  }

  lemma Utf8One(c: char)
    ensures Utf8([c]) == Utf8Char(c)
  {
    assert [c] == [c] + "";
    Utf8Cons(c, "");
  }
}
