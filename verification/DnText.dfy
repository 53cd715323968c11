/** Distinguished names as text (src/service.rs, src/openssl.rs): splitting, unescaping, rendering for `-subj`. */
module DnText {
  import opened Wrappers
  import opened ByteStrings
  import opened Texts

  // ----- splitting at unescaped separators -----

  function SplitUnescaped(s: string, separators: string): (parts: seq<string>)
    ensures |parts| >= 1
  {
    if s == "" then [""]
    else if s[0] == '\\' then
      if |s| == 1 then ["\\"]
      else
        var rest := SplitUnescaped(s[2..], separators);
        [s[..2] + rest[0]] + rest[1..]
    else
      var rest := SplitUnescaped(s[1..], separators);
      if s[0] in separators then [""] + rest else [[s[0]] + rest[0]] + rest[1..]
  }

  /** The pieces so far, the last one still open. */
  function Resume(parts: seq<string>, current: string, rest: seq<string>): seq<string>
    requires |rest| >= 1
  {
    parts + [current + rest[0]] + rest[1..]
  }

  method SplitLoop(input: string, separators: string) returns (parts: seq<string>)
    ensures parts == SplitUnescaped(input, separators)
  {
    hide SplitUnescaped, Resume;
    ghost var whole := SplitUnescaped(input, separators);
    ResumeStart(whole);
    parts := [];
    var current, escaped := "", false;
    for i := 0 to |input|
      invariant escaped ==> i > 0 && input[i - 1] == '\\'
      invariant whole == Resume(parts, current, SplitUnescaped(input[if escaped then i - 1 else i..], separators))
    {
      var ch := input[i];
      SplitStep(input, separators, if escaped then i - 1 else i, parts, current);
      if escaped {
        current := current + ['\\'];
        current := current + [ch];
        escaped := false;
      } else if ch == '\\' {
        escaped := true;
      } else if ch in separators {
        parts := parts + [current];
        current := "";
      } else {
        current := current + [ch];
      }
    }
    ghost var at := if escaped then |input| - 1 else |input|;
    SplitEnd(input, separators, at, parts, current);
    if escaped {
      current := current + ['\\'];
    }
    parts := parts + [current];
  }

  lemma ResumeStart(rest: seq<string>)
    requires |rest| >= 1
    ensures Resume([], "", rest) == rest
  {
    assert "" + rest[0] == rest[0];
  }

  /** One character, or one escape, of the loop. */
  lemma SplitStep(s: string, separators: string, i: nat, parts: seq<string>, current: string)
    requires i < |s|
    ensures var now := Resume(parts, current, SplitUnescaped(s[i..], separators));
      if s[i] == '\\' then
        i + 1 < |s| ==> now == Resume(parts, current + ['\\'] + [s[i + 1]], SplitUnescaped(s[i + 2..], separators))
      else if s[i] in separators then now == Resume(parts + [current], "", SplitUnescaped(s[i + 1..], separators))
      else now == Resume(parts, current + [s[i]], SplitUnescaped(s[i + 1..], separators))
  {
    var t := s[i..];
    assert t[1..] == s[i + 1..];
    if s[i] == '\\' && i + 1 < |s| {
      var rest := SplitUnescaped(s[i + 2..], separators);
      assert t[2..] == s[i + 2..] && t[..2] == ['\\'] + [s[i + 1]];
      assert current + (t[..2] + rest[0]) == current + ['\\'] + [s[i + 1]] + rest[0];
    } else if s[i] != '\\' {
      var rest := SplitUnescaped(s[i + 1..], separators);
      if s[i] in separators {
        assert current + "" == current && "" + rest[0] == rest[0];
        assert ([""] + rest)[1..] == rest == [rest[0]] + rest[1..];
      } else {
        assert current + ([s[i]] + rest[0]) == current + [s[i]] + rest[0];
      }
    }
  }

  lemma SplitEnd(s: string, separators: string, i: nat, parts: seq<string>, current: string)
    requires i == |s| || (i == |s| - 1 && s[i] == '\\')
    ensures Resume(parts, current, SplitUnescaped(s[i..], separators))
            == parts + [if i == |s| then current else current + ['\\']]
  {
    if i == |s| {
      assert s[i..] == "" && current + "" == current;
    } else {
      assert s[i..] == "\\";
    }
  }

  /** Splitting at one separator loses nothing. */
  lemma {:induction false} JoinSplitUnescaped(s: string, sep: char)
    ensures Join(SplitUnescaped(s, [sep]), sep) == s
  {
    var parts := SplitUnescaped(s, [sep]);
    if s == "" || s == "\\" {
    } else if s[0] == '\\' {
      JoinSplitUnescaped(s[2..], sep);
      JoinPrefix(s[..2], SplitUnescaped(s[2..], [sep]), sep);
    } else {
      var rest := SplitUnescaped(s[1..], [sep]);
      JoinSplitUnescaped(s[1..], sep);
      if s[0] == sep {
        assert parts[1..] == rest;
      } else {
        JoinPrefix([s[0]], rest, sep);
      }
    }
  }

  lemma JoinPrefix(head: string, parts: seq<string>, sep: char)
    requires |parts| >= 1
    ensures Join([head + parts[0]] + parts[1..], sep) == head + Join(parts, sep)
  {
    if |parts| > 1 {
      assert ([head + parts[0]] + parts[1..])[1..] == parts[1..];
      assert head + (parts[0] + [sep] + Join(parts[1..], sep)) == (head + parts[0]) + [sep] + Join(parts[1..], sep);
    }
  }

  // ----- unescaping -----

  /** `u8::from_str_radix(pair, 16)`, which takes a leading plus sign. */
  function FromHexPair(x: byte, y: byte): (r: Option<byte>) {
    if x == 43 then HexDigitOf(y)
    else if HexDigitOf(x).Some? && HexDigitOf(y).Some? then Some(16 * HexDigitOf(x).value + HexDigitOf(y).value)
    else None
  }

  function HexAfter(b: Bytes): Option<byte>
    requires b != []
  {
    if |b| >= 3 then FromHexPair(b[1], b[2]) else None
  }

  function Unescape(b: Bytes): Bytes {
    if b == [] then []
    else if b[0] == 92 && |b| >= 2 then
      if HexAfter(b).Some? then [HexAfter(b).value] + Unescape(b[3..]) else [b[1]] + Unescape(b[2..])
    else [b[0]] + Unescape(b[1..])
  }

  method UnescapeLoop(bytes: Bytes) returns (out: Bytes)
    ensures out == Unescape(bytes)
  {
    hide Unescape, FromHexPair;
    out := [];
    var i := 0;
    while i < |bytes|
      invariant i <= |bytes|
      invariant out + Unescape(bytes[i..]) == Unescape(bytes)
    {
      UnescapeStep(bytes, i, out);
      if bytes[i] == 92 && i + 1 < |bytes| {
        var hex := if i + 3 <= |bytes| then FromHexPair(bytes[i + 1], bytes[i + 2]) else None;
        if hex.Some? {
          out := out + [hex.value];
          i := i + 3;
        } else {
          out := out + [bytes[i + 1]];
          i := i + 2;
        }
      } else {
        out := out + [bytes[i]];
        i := i + 1;
      }
    }
    UnescapeNothing(out);
    assert bytes[|bytes|..] == [];
  }

  lemma UnescapeNothing(out: Bytes)
    ensures out + Unescape([]) == out
  {
  }

  lemma UnescapeStep(bytes: Bytes, i: nat, out: Bytes)
    requires i < |bytes|
    ensures var now := out + Unescape(bytes[i..]);
      if bytes[i] == 92 && i + 1 < |bytes| then
        var hex := if i + 3 <= |bytes| then FromHexPair(bytes[i + 1], bytes[i + 2]) else None;
        if hex.Some? then now == out + [hex.value] + Unescape(bytes[i + 3..])
        else now == out + [bytes[i + 1]] + Unescape(bytes[i + 2..])
      else now == out + [bytes[i]] + Unescape(bytes[i + 1..])
  {
    hide FromHexPair;
    var b := bytes[i..];
    assert b[1..] == bytes[i + 1..];
    assert |b| >= 2 ==> b[2..] == bytes[i + 2..];
    assert |b| >= 3 ==> b[3..] == bytes[i + 3..];
  }

  /** `unescape_dn_value`; `lossy` is `String::from_utf8_lossy`. */
  function UnescapeDnValue(value: string, lossy: Bytes -> string): string {
    lossy(Unescape(Utf8(value)))
  }

  // ----- attributes of a name -----

  datatype Attribute = Attribute(key: string, value: string)

  function AttributeOf(part: string, lossy: Bytes -> string): Option<Attribute> {
    var pieces := SplitUnescaped(part, "=");
    var key := Trim(pieces[0]);
    if key == "" then None
    else Some(Attribute(key, UnescapeDnValue(Trim(Join(pieces[1..], '=')), lossy)))
  }

  function AttributesOf(parts: seq<string>, lossy: Bytes -> string): seq<Attribute> {
    if parts == [] then []
    else (match AttributeOf(parts[0], lossy) case Some(a) => [a] case None => []) + AttributesOf(parts[1..], lossy)
  }

  function SubjectAttributes(subject: string, lossy: Bytes -> string): seq<Attribute> {
    AttributesOf(SplitUnescaped(subject, ",+"), lossy)
  }

  // ----- rendering for openssl -----

  function EscapeSubject(input: string): string {
    if input == "" then ""
    else (if input[0] in "\\/+=" then "\\" else "") + [input[0]] + EscapeSubject(input[1..])
  }

  lemma EscapeHead(value: string)
    requires value != ""
    ensures EscapeSubject(value)
            == (if value[0] in "\\/+=" then "\\" else "") + [value[0]] + EscapeSubject(value[1..])
  {
  }

  method EscapeLoop(input: string) returns (out: string)
    ensures out == EscapeSubject(input)
  {
    hide EscapeSubject;
    out := "";
    assert input[0..] == input;
    for i := 0 to |input|
      invariant out + EscapeSubject(input[i..]) == EscapeSubject(input)
    {
      EscapeStep(out, input, i);
      if input[i] in "\\/+=" {
        out := out + "\\";
      }
      out := out + [input[i]];
    }
    assert input[|input|..] == "";
    EscapeNothing(out);
  }

  lemma EscapeStep(out: string, input: string, i: nat)
    requires i < |input|
    ensures out + EscapeSubject(input[i..])
            == (if input[i] in "\\/+=" then out + "\\" + [input[i]] else out + [input[i]]) + EscapeSubject(input[i + 1..])
  {
    EscapeHead(input[i..]);
    hide EscapeSubject;
    assert input[i..][1..] == input[i + 1..];
  }

  lemma EscapeNothing(out: string)
    ensures out + EscapeSubject("") == out
  {
  }

  function Rendered(attributes: seq<Attribute>): string {
    if attributes == [] then ""
    else "/" + attributes[0].key + "=" + EscapeSubject(attributes[0].value) + Rendered(attributes[1..])
  }

  function SlashSubject(attributes: seq<Attribute>): Option<string> {
    if attributes == [] then None else Some(Rendered(attributes))
  }

  /** A value up to the next unescaped slash, with backslashes read as "take the next character literally". */
  function ReadValue(s: string): (r: (string, string))
    ensures |r.1| <= |s|
  {
    if s == "" || s[0] == '/' then ("", s)
    else if s[0] == '\\' && |s| >= 2 then
      var (value, rest) := ReadValue(s[2..]);
      ([s[1]] + value, rest)
    else
      var (value, rest) := ReadValue(s[1..]);
      ([s[0]] + value, rest)
  }

  function ReadKey(s: string): (r: (string, string))
    ensures |r.1| <= |s|
  {
    if s == "" || s[0] == '=' then ("", s)
    else
      var (key, rest) := ReadKey(s[1..]);
      ([s[0]] + key, rest)
  }

  /** The attributes of a `-subj` string. */
  function ReadSubject(s: string): Option<seq<Attribute>>
    decreases |s|
  {
    if s == "" then Some([])
    else if s[0] != '/' then None
    else
      var (key, afterKey) := ReadKey(s[1..]);
      if afterKey == "" then None
      else
        var (value, rest) := ReadValue(afterKey[1..]);
        var more :- ReadSubject(rest);
        Some([Attribute(key, value)] + more)
  }

  lemma ReadOne(c: char, more: string)
    ensures var (value, rest) := ReadValue(more);
      ReadValue((if c in "\\/+=" then "\\" else "") + [c] + more) == ([c] + value, rest)
  {
    if c in "\\/+=" {
      assert ("\\" + [c] + more)[2..] == more;
    } else {
      assert "" + [c] + more == [c] + more;
      assert ([c] + more)[1..] == more;
    }
  }

  lemma {:induction false} ReadEscaped(value: string, rest: string)
    requires rest == "" || rest[0] == '/'
    ensures ReadValue(EscapeSubject(value) + rest) == (value, rest)
  {
    if value == "" {
      assert EscapeSubject(value) + rest == rest;
    } else {
      hide ReadValue, EscapeSubject;
      ReadEscaped(value[1..], rest);
      var more := EscapeSubject(value[1..]) + rest;
      EscapeHead(value);
      assert EscapeSubject(value) + rest == (if value[0] in "\\/+=" then "\\" else "") + [value[0]] + more;
      ReadOne(value[0], more);
      assert value == [value[0]] + value[1..];
    }
  }

  lemma {:induction false} ReadKeyOf(key: string, rest: string)
    requires '=' !in key
    ensures ReadKey(key + "=" + rest) == (key, "=" + rest)
  {
    if key == "" {
      assert key + "=" + rest == "=" + rest;
    } else {
      assert key == [key[0]] + key[1..];
      ReadKeyOf(key[1..], rest);
      assert (key + "=" + rest)[1..] == key[1..] + "=" + rest;
    }
  }

  ghost predicate PlainKeys(attributes: seq<Attribute>) {
    forall i :: 0 <= i < |attributes| ==> '=' !in attributes[i].key
  }

  lemma {:induction false} ReadRendered(attributes: seq<Attribute>)
    requires PlainKeys(attributes)
    ensures ReadSubject(Rendered(attributes)) == Some(attributes)
  {
    hide ReadKey, ReadValue, EscapeSubject;
    if attributes != [] {
      var (key, value, rest) := (attributes[0].key, attributes[0].value, Rendered(attributes[1..]));
      ReadRendered(attributes[1..]);
      var s := Rendered(attributes);
      assert s[1..] == key + "=" + (EscapeSubject(value) + rest);
      ReadKeyOf(key, EscapeSubject(value) + rest);
      assert ("=" + (EscapeSubject(value) + rest))[1..] == EscapeSubject(value) + rest;
      ReadEscaped(value, rest);
      assert attributes == [attributes[0]] + attributes[1..];
    }
  }

  /** Two attribute lists never render to one subject. */
  lemma SlashSubjectIsInjective(a: seq<Attribute>, b: seq<Attribute>)
    requires PlainKeys(a) && PlainKeys(b) && SlashSubject(a) == SlashSubject(b)
    ensures a == b
  {
    ReadRendered(a);
    ReadRendered(b);
  }

  // ----- printed names (section 2.4 of RFC 2253) -----

  /** How one character of a value is printed: as it is, after a backslash, or as `\XX` for each of its bytes. */
  datatype Unit = Plain(c: char) | Quoted(c: char) | Hexed(c: char)

  function HexText(b: Bytes): string {
    if b == [] then ""
    else
      var n := b[0] as int;
      ['\\', HexByte(n / 16) as int as char, HexByte(n % 16) as int as char] + HexText(b[1..])
  }

  function UnitText(u: Unit): (t: string)
    ensures t != ""
  {
    match u
    case Plain(c) => [c]
    case Quoted(c) => ['\\', c]
    case Hexed(c) => HexText(Utf8Char(c))
  }

  function Text(us: seq<Unit>): string {
    if us == [] then "" else UnitText(us[0]) + Text(us[1..])
  }

  /**
   The printed form of a value. `hex` says which characters are printed as hex pairs: openssl's RFC 2253 options
   choose the control characters, and without `-esc_msb` everything beyond ASCII too.
   */
  function UnitAt(value: string, i: nat, hex: char -> bool): Unit
    requires i < |value|
  {
    var c := value[i];
    if hex(c) then Hexed(c)
    else if c in ",+\"\\<>;" || (i == 0 && (c == ' ' || c == '#')) || (i == |value| - 1 && c == ' ') then Quoted(c)
    else Plain(c)
  }

  function Units(value: string, hex: char -> bool): (us: seq<Unit>)
    ensures |us| == |value|
  {
    seq(|value|, i requires 0 <= i < |value| => UnitAt(value, i, hex))
  }

  function PrintValue(value: string, hex: char -> bool): string {
    Text(Units(value, hex))
  }

  /** No plain backslash, and no quoted hex digit. */
  predicate ValidUnit(u: Unit) {
    match u
    case Plain(c) => c != '\\'
    case Quoted(c) => HexDigitOf(c as int).None?
    case Hexed(_) => true
  }

  predicate ValidUnits(us: seq<Unit>) {
    forall i :: 0 <= i < |us| ==> ValidUnit(us[i])
  }

  // ----- what unescaping makes of units -----

  /** A quoted plus sign swallows a hex digit after it. */
  predicate Swallows(us: seq<Unit>) {
    |us| >= 2 && us[0] == Quoted('+') && us[1].Plain? && HexDigitOf(us[1].c as int).Some?
  }

  function Decoded(us: seq<Unit>): (s: string)
    ensures |s| <= |us|
  {
    if us == [] then ""
    else if Swallows(us) then [HexDigitOf(us[1].c as int).value as char] + Decoded(us[2..])
    else [us[0].c] + Decoded(us[1..])
  }

  lemma {:induction false} UnescapePass(b: Bytes, rest: Bytes)
    requires 92 !in b
    ensures Unescape(b + rest) == b + Unescape(rest)
  {
    hide HexAfter;
    if b == [] {
      assert b + rest == rest;
    } else {
      UnescapePass(b[1..], rest);
      assert (b + rest)[1..] == b[1..] + rest;
    }
  }

  lemma UnescapeTriple(high: nat, low: nat, rest: Bytes)
    requires high < 16 && low < 16
    ensures Unescape([92, HexByte(high), HexByte(low)] + rest) == [(16 * high + low) as byte] + Unescape(rest)
  {
    HexByteDigit(high);
    HexByteDigit(low);
    hide HexDigitOf;
    var b := [92, HexByte(high), HexByte(low)] + rest;
    assert b[3..] == rest;
    assert HexAfter(b) == Some(16 * high + low);
  }

  lemma Utf8Triple(x: byte, y: byte, z: byte, s: string)
    requires x < 128 && y < 128 && z < 128
    ensures Utf8([x as int as char, y as int as char, z as int as char] + s) == [x, y, z] + Utf8(s)
  {
    hide Utf8;
    var (a, b, c) := (x as int as char, y as int as char, z as int as char);
    assert [a, b, c] + s == [a] + ([b] + ([c] + s));
    Utf8Cons(c, s);
    Utf8Cons(b, [c] + s);
    Utf8Cons(a, [b] + ([c] + s));
  }

  lemma {:induction false} UnescapeHexText(b: Bytes, rest: Bytes)
    ensures Unescape(Utf8(HexText(b)) + rest) == b + Unescape(rest)
  {
    hide Unescape, Utf8Char;
    if b == [] {
      assert Utf8("") + rest == rest;
    } else {
      var n := b[0] as int;
      HexByteDigit(n / 16);
      HexByteDigit(n % 16);
      UnescapeHexText(b[1..], rest);
      var more := HexText(b[1..]);
      Utf8Triple(92, HexByte(n / 16), HexByte(n % 16), more);
      hide Utf8;
      var triple := [92, HexByte(n / 16), HexByte(n % 16)];
      assert Utf8(HexText(b)) + rest == triple + (Utf8(more) + rest);
      UnescapeTriple(n / 16, n % 16, Utf8(more) + rest);
      assert b == [b[0]] + b[1..];
    }
  }

  /** The first byte after a quoted plus sign is a hex digit just when the next unit is a plain one. */
  lemma FirstByte(us: seq<Unit>, tail: Bytes)
    requires us != []
    ensures var b := Utf8(Text(us)) + tail;
      b != [] && (HexDigitOf(b[0]) == if us[0].Plain? then HexDigitOf(us[0].c as int) else None)
  {
    var t := Text(us);
    assert Utf8(t) == Utf8Char(t[0]) + Utf8(t[1..]);
    match us[0]
    case Plain(c) => assert t[0] == c;
    case Quoted(_) => assert t[0] == '\\';
    case Hexed(c) => assert t[0] == '\\';
  }

  /** A lone backslash that trimming may leave at the end. */
  function Stray(lone: bool): Bytes {
    if lone then [92] else []
  }

  lemma UnescapeQuoted(c: char, rest: Bytes)
    requires HexDigitOf(c as int).None? && (c == '+' ==> rest == [] || HexDigitOf(rest[0]).None?)
    ensures Unescape([92] + Utf8Char(c) + rest) == Utf8Char(c) + Unescape(rest)
  {
    hide Utf8Char, Unescape, HexAfter, HexDigitOf;
    var u := Utf8Char(c);
    var b := [92] + u + rest;
    NoHexAfter(c, rest);
    UnescapeSlash(b);
    assert b[1] == u[0] && b[2..] == u[1..] + rest;
    UnescapePass(u[1..], rest);
    assert [u[0]] + (u[1..] + Unescape(rest)) == u + Unescape(rest);
  }

  lemma UnescapeSlash(b: Bytes)
    requires |b| >= 2 && b[0] == 92 && HexAfter(b).None?
    ensures Unescape(b) == [b[1]] + Unescape(b[2..])
  {
    hide HexAfter;
  }

  lemma NoHexAfter(c: char, rest: Bytes)
    requires HexDigitOf(c as int).None? && (c == '+' ==> rest == [] || HexDigitOf(rest[0]).None?)
    ensures HexAfter([92] + Utf8Char(c) + rest).None? && 92 !in Utf8Char(c)[1..]
  {
    hide Utf8Char;
    var u := Utf8Char(c);
    var b := [92] + u + rest;
    assert b[1] == u[0];
    if |u| == 1 && rest != [] {
      assert b[2] == rest[0];
    }
    assert forall i :: 1 <= i < |u| ==> u[i] >= 128;
  }

  lemma UnescapeSwallow(digit: char, rest: Bytes)
    requires HexDigitOf(digit as int).Some?
    ensures Unescape([92, 43] + Utf8Char(digit) + rest) == [HexDigitOf(digit as int).value as byte] + Unescape(rest)
  {
    var b := [92, 43] + Utf8Char(digit) + rest;
    assert b[2] == digit as int && b[3..] == rest;
  }

  lemma UnescapeStray(lone: bool)
    ensures Unescape(Stray(lone)) == Stray(lone)
  {
  }

  /** Unescaping a printed form, cut short or not, yields the decoded characters. */
  lemma {:induction false} UnescapeText(us: seq<Unit>, lone: bool)
    requires ValidUnits(us)
    ensures Unescape(Utf8(Text(us)) + Stray(lone)) == Utf8(Decoded(us)) + Stray(lone)
    decreases |us|
  {
    hide Unescape, HexDigitOf, Utf8Char, Utf8, HexText;
    var tail := Stray(lone);
    if us == [] {
      UnescapeStray(lone);
      Utf8Nothing();
      assert Utf8("") + tail == tail;
    } else if Swallows(us) {
      UnescapeText(us[2..], lone);
      SwallowedText(us, tail);
      var d := HexDigitOf(us[1].c as int).value;
      var rest := Utf8(Text(us[2..])) + tail;
      UnescapeSwallow(us[1].c, rest);
      DecodedBytes(d as char, Decoded(us[2..]), tail);
      AsciiByte(d as char);
    } else {
      var c := us[0].c;
      UnescapeText(us[1..], lone);
      var rest := Utf8(Text(us[1..])) + tail;
      Utf8Append(UnitText(us[0]), Text(us[1..]));
      assert Utf8(Text(us)) + tail == Utf8(UnitText(us[0])) + rest;
      UnescapeUnit(us, tail);
      DecodedBytes(c, Decoded(us[1..]), tail);
    }
  }

  lemma AsciiByte(c: char)
    requires c as int < 128
    ensures Utf8Char(c) == [c as int as byte]
  {
  }

  lemma DecodedBytes(c: char, more: string, tail: Bytes)
    ensures Utf8([c] + more) + tail == Utf8Char(c) + (Utf8(more) + tail)
  {
    hide Utf8, Utf8Char;
    Utf8Cons(c, more);
    Regroup(Utf8Char(c), Utf8(more), tail);
  }

  lemma SwallowedText(us: seq<Unit>, tail: Bytes)
    requires Swallows(us)
    ensures Utf8(Text(us)) + tail == [92, 43] + Utf8Char(us[1].c) + (Utf8(Text(us[2..])) + tail)
  {
    hide HexDigitOf, Utf8, Utf8Char;
    var (d, more) := (us[1].c, Text(us[2..]));
    assert us[1..][1..] == us[2..];
    assert Text(us) == ['\\'] + (['+'] + ([d] + more));
    Utf8Cons(d, more);
    Utf8Cons('+', [d] + more);
    Utf8Cons('\\', ['+'] + ([d] + more));
    AsciiByte('+');
    AsciiByte('\\');
    assert Utf8(Text(us)) == [92] + ([43] + (Utf8Char(d) + Utf8(more)));
  }

  lemma UnescapeUnit(us: seq<Unit>, tail: Bytes)
    requires us != [] && ValidUnit(us[0]) && !Swallows(us) && (tail == [] || tail == [92])
    ensures var rest := Utf8(Text(us[1..])) + tail;
      Unescape(Utf8(UnitText(us[0])) + rest) == Utf8Char(us[0].c) + Unescape(rest)
  {
    var rest := Utf8(Text(us[1..])) + tail;
    match us[0]
    case Plain(c) =>
      Utf8One(c);
      UnescapePass(Utf8Char(c), rest);
    case Quoted(c) =>
      assert ['\\', c] == ['\\'] + [c];
      Utf8Append(['\\'], [c]);
      Utf8One('\\');
      Utf8One(c);
      if us[1..] != [] {
        FirstByte(us[1..], tail);
      } else {
        assert Utf8(Text([])) + tail == tail;
      }
      UnescapeQuoted(c, rest);
    case Hexed(c) =>
      UnescapeHexText(Utf8Char(c), rest);
  }

  // ----- trimming a printed value -----

  predicate Blank(u: Unit) {
    u.Plain? && IsWhitespace(u.c)
  }

  function DropLeading(us: seq<Unit>): (r: seq<Unit>)
    ensures |r| <= |us| && r == us[|us| - |r|..]
    ensures |r| == |us| <==> us == [] || !Blank(us[0])
  {
    if us != [] && Blank(us[0]) then DropLeading(us[1..]) else us
  }

  function DropTrailing(us: seq<Unit>): (r: seq<Unit>)
    ensures |r| <= |us| && r == us[..|r|]
    ensures |r| == |us| <==> us == [] || !Blank(us[|us| - 1])
    ensures r == [] || !Blank(r[|r| - 1])
  {
    if us != [] && Blank(us[|us| - 1]) then DropTrailing(us[..|us| - 1]) else us
  }

  /** A quoted space at the end loses its space and leaves its backslash. */
  predicate LosesSpace(us: seq<Unit>) {
    us != [] && us[|us| - 1].Quoted? && IsWhitespace(us[|us| - 1].c)
  }

  lemma {:induction false} TextAppend(a: seq<Unit>, b: seq<Unit>)
    ensures Text(a + b) == Text(a) + Text(b)
  {
    hide UnitText;
    if a == [] {
      assert a + b == b;
    } else {
      TextAppend(a[1..], b);
      assert (a + b)[1..] == a[1..] + b;
      assert UnitText(a[0]) + (Text(a[1..]) + Text(b)) == (UnitText(a[0]) + Text(a[1..])) + Text(b);
    }
  }

  lemma {:induction false} TrimStartText(us: seq<Unit>)
    ensures TrimStart(Text(us)) == Text(DropLeading(us))
  {
    if us != [] {
      var t := Text(us);
      if Blank(us[0]) {
        TrimStartText(us[1..]);
        assert t[1..] == Text(us[1..]);
      } else {
        match us[0]
        case Plain(c) => assert t[0] == c;
        case Quoted(_) => assert t[0] == '\\';
        case Hexed(c) => assert t[0] == '\\';
      }
    }
  }

  lemma {:induction false} HexTextEnd(b: Bytes)
    requires b != []
    ensures HexText(b) != "" && !IsWhitespace(HexText(b)[|HexText(b)| - 1])
  {
    if |b| > 1 {
      HexTextEnd(b[1..]);
    } else {
      var n := b[0] as int;
      HexByteDigit(n % 16);
      assert HexText(b[1..]) == "";
    }
  }

  lemma LastUnit(us: seq<Unit>)
    requires us != []
    ensures Text(us) == Text(us[..|us| - 1]) + UnitText(us[|us| - 1])
  {
    hide Text, UnitText;
    TextAppend(us[..|us| - 1], [us[|us| - 1]]);
    assert us == us[..|us| - 1] + [us[|us| - 1]];
    OneUnit(us[|us| - 1]);
  }

  lemma OneUnit(u: Unit)
    ensures Text([u]) == UnitText(u)
  {
    assert [u][1..] == [];
    assert Text([u]) == UnitText(u) + Text([]);
  }

  function CutText(us: seq<Unit>): string {
    if LosesSpace(us) then Text(us[..|us| - 1]) + "\\" else Text(us)
  }

  lemma {:induction false} TrimEndText(us: seq<Unit>)
    ensures TrimEnd(Text(us)) == CutText(DropTrailing(us))
    decreases |us|
  {
    if us != [] {
      var (init, last) := (us[..|us| - 1], us[|us| - 1]);
      LastUnit(us);
      hide TrimEnd, Text, IsWhitespace;
      if Blank(last) {
        TrimEndText(init);
        DropLast(Text(init), last.c);
      } else {
        TrimEndUnit(Text(init), last);
      }
    } else {
      assert TrimEnd("") == "";
    }
  }

  lemma DropLast(t: string, c: char)
    requires IsWhitespace(c)
    ensures TrimEnd(t + [c]) == TrimEnd(t)
  {
    assert (t + [c])[..|t|] == t;
  }

  lemma TrimEndUnit(before: string, last: Unit)
    requires !Blank(last)
    ensures TrimEnd(before + UnitText(last))
            == if last.Quoted? && IsWhitespace(last.c) then before + "\\" else before + UnitText(last)
  {
    hide IsWhitespace, HexText;
    var t := before + UnitText(last);
    match last
    case Plain(c) => assert t[|t| - 1] == c;
    case Quoted(c) =>
      assert t[|t| - 1] == c && t[..|t| - 1] == before + "\\";
      BackslashIsVisible();
      TrimOnce(t);
    case Hexed(c) =>
      HexTextEnd(Utf8Char(c));
      assert t[|t| - 1] == UnitText(last)[|UnitText(last)| - 1];
  }

  lemma BackslashIsVisible()
    ensures !IsWhitespace('\\')
  {
  }

  lemma TrimOnce(t: string)
    requires |t| >= 2 && !IsWhitespace(t[|t| - 2])
    ensures TrimEnd(t) == if IsWhitespace(t[|t| - 1]) then t[..|t| - 1] else t
  {
  }

  function CutDecoded(us: seq<Unit>): string {
    if LosesSpace(us) then Decoded(us[..|us| - 1]) + "\\" else Decoded(us)
  }

  /** What is left of a printed value when its piece has been trimmed and unescaped. */
  function Survives(us: seq<Unit>): (s: string)
  {
    CutDecoded(DropTrailing(DropLeading(us)))
  }

  lemma UnescapeCut(us: seq<Unit>)
    requires ValidUnits(us)
    ensures Unescape(Utf8(CutText(us))) == Utf8(CutDecoded(us))
  {
    hide Unescape, Decoded, Text, Utf8, ValidUnit;
    if LosesSpace(us) {
      var init := us[..|us| - 1];
      hide LosesSpace;
      UnescapeText(init, true);
      Utf8Append(Text(init), "\\");
      Utf8Append(Decoded(init), "\\");
      BackslashByte();
    } else {
      UnescapeText(us, false);
      assert Utf8(Text(us)) + [] == Utf8(Text(us)) && Utf8(Decoded(us)) + [] == Utf8(Decoded(us));
    }
  }

  lemma TrimText(us: seq<Unit>)
    ensures Trim(Text(us)) == CutText(DropTrailing(DropLeading(us)))
  {
    hide Text, Trim, TrimStart, TrimEnd, CutText, DropLeading, DropTrailing;
    TrimIs(Text(us));
    TrimStartText(us);
    TrimEndText(DropLeading(us));
  }

  lemma DroppedAreValid(us: seq<Unit>)
    requires ValidUnits(us)
    ensures ValidUnits(DropTrailing(DropLeading(us)))
  {
    hide DropLeading, DropTrailing, ValidUnits;
    var lead := DropLeading(us);
    assert us[|us| - |lead|..|us|] == lead && lead[0..|DropTrailing(lead)|] == DropTrailing(lead);
    PartsAreValid(us, |us| - |lead|, |us|);
    PartsAreValid(lead, 0, |DropTrailing(lead)|);
  }

  lemma TrimmedValue(us: seq<Unit>, lossy: Bytes -> string)
    requires ValidUnits(us) && forall s: string :: lossy(Utf8(s)) == s
    ensures UnescapeDnValue(Trim(Text(us)), lossy) == Survives(us)
  {
    hide Unescape, CutText, CutDecoded, Text, Utf8, Trim, DropLeading, DropTrailing, ValidUnits;
    TrimText(us);
    DroppedAreValid(us);
    UnescapeCut(DropTrailing(DropLeading(us)));
  }

  lemma PartsAreValid(us: seq<Unit>, lo: nat, hi: nat)
    requires ValidUnits(us) && lo <= hi <= |us|
    ensures ValidUnits(us[lo..hi])
  {
    hide ValidUnit;
  }

  lemma BackslashByte()
    ensures Utf8("\\") == [92]
  {
    Utf8One('\\');
  }

  // ----- what comes back -----

  predicate NoneSwallows(us: seq<Unit>) {
    us == [] || (!Swallows(us) && NoneSwallows(us[1..]))
  }

  lemma {:induction false} DecodedWhole(us: seq<Unit>)
    ensures |Decoded(us)| == |us| <==> NoneSwallows(us)
    ensures NoneSwallows(us) ==> Decoded(us) == Chars(us)
  {
    hide HexDigitOf;
    if us != [] && !Swallows(us) {
      DecodedWhole(us[1..]);
      assert Chars(us) == [us[0].c] + Chars(us[1..]);
    }
  }

  lemma {:induction false} SwallowsNowhere(us: seq<Unit>, k: nat)
    requires k <= |us|
    ensures NoneSwallows(us[k..]) <==> forall i :: k <= i < |us| ==> !Swallows(us[i..])
    decreases |us| - k
  {
    hide Swallows;
    if k < |us| {
      SwallowsNowhere(us, k + 1);
      assert us[k..][1..] == us[k + 1..];
    }
  }

  function Chars(us: seq<Unit>): (s: string)
    ensures |s| == |us|
  {
    seq(|us|, i requires 0 <= i < |us| => us[i].c)
  }

  /**
   The values that come back: no whitespace at the end and none but a space at the start, unless printed in hex,
   and no plus sign before a hex digit.
   */
  predicate Faithful(value: string, hex: char -> bool) {
    && (value != "" ==>
          && (hex(value[0]) || value[0] == ' ' || !IsWhitespace(value[0]))
          && (hex(value[|value| - 1]) || !IsWhitespace(value[|value| - 1])))
    && forall i :: 0 <= i < |value| - 1 ==>
         !(value[i] == '+' && !hex(value[i]) && HexDigitOf(value[i + 1] as int).Some? && !hex(value[i + 1]))
  }

  lemma UnitsEnds(value: string, hex: char -> bool)
    requires value != ""
    ensures var us := Units(value, hex);
      && (Blank(us[0]) <==> !(hex(value[0]) || value[0] == ' ' || !IsWhitespace(value[0])))
      && (Blank(us[|us| - 1]) || LosesSpace(us) <==>
            !(hex(value[|value| - 1]) || !IsWhitespace(value[|value| - 1])))
  {
  }

  lemma UnitsSwallow(value: string, hex: char -> bool, i: nat)
    requires i < |value|
    ensures Swallows(Units(value, hex)[i..]) <==>
            i < |value| - 1 && value[i] == '+' && !hex(value[i])
            && HexDigitOf(value[i + 1] as int).Some? && !hex(value[i + 1])
  {
    var us := Units(value, hex);
    var t := us[i..];
    assert t[0] == us[i];
    if i < |value| - 1 {
      assert t[1] == us[i + 1];
    }
  }

  lemma UnitsAreValid(value: string, hex: char -> bool)
    ensures ValidUnits(Units(value, hex))
  {
  }

  predicate Kept(us: seq<Unit>) {
    && (us != [] ==> !Blank(us[0]) && !Blank(us[|us| - 1]) && !LosesSpace(us))
    && NoneSwallows(us)
  }

  lemma SurvivesWhole(us: seq<Unit>)
    ensures Survives(us) == Chars(us) <==> Kept(us)
  {
    hide Decoded, Swallows;
    var lead := DropLeading(us);
    var r := DropTrailing(lead);
    hide DropLeading, DropTrailing, Blank;
    if |r| == |us| {
      assert r == us && lead == us;
      if LosesSpace(us) {
        hide LosesSpace;
        QuotedSpaceIsLost(us);
      } else {
        DecodedWhole(us);
      }
    }
  }

  lemma QuotedSpaceIsLost(us: seq<Unit>)
    requires LosesSpace(us)
    ensures Decoded(us[..|us| - 1]) + "\\" != Chars(us)
  {
    hide Decoded, IsWhitespace;
    BackslashIsVisible();
    var d := Decoded(us[..|us| - 1]) + "\\";
    assert d[|d| - 1] == '\\';
    assert Chars(us)[|us| - 1] == us[|us| - 1].c;
  }

  lemma FaithfulIsKept(value: string, hex: char -> bool)
    ensures Kept(Units(value, hex)) <==> Faithful(value, hex)
  {
    hide Swallows, Blank, LosesSpace, UnitAt, HexDigitOf, IsWhitespace, NoneSwallows;
    var us := Units(value, hex);
    if value != "" {
      UnitsEnds(value, hex);
    }
    SwallowsNowhere(us, 0);
    assert us[0..] == us;
    if Kept(us) {
      forall i | 0 <= i < |value| - 1
        ensures !(value[i] == '+' && !hex(value[i]) && HexDigitOf(value[i + 1] as int).Some? && !hex(value[i + 1]))
      {
        UnitsSwallow(value, hex, i);
        assert !Swallows(us[i..]);
      }
    }
    if Faithful(value, hex) {
      forall i | 0 <= i < |us| ensures !Swallows(us[i..]) {
        UnitsSwallow(value, hex, i);
      }
    }
  }

  lemma UnitChars(value: string, hex: char -> bool)
    ensures Chars(Units(value, hex)) == value
  {
  }

  // ----- whole names -----

  /** `head` before the first of some pieces. */
  function Attach(head: string, parts: seq<string>): (r: seq<string>)
    requires |parts| >= 1
    ensures |r| >= 1
  {
    [head + parts[0]] + parts[1..]
  }

  lemma AttachTwice(a: string, b: string, parts: seq<string>)
    requires |parts| >= 1
    ensures Attach(a, Attach(b, parts)) == Attach(a + b, parts)
  {
    assert a + (b + parts[0]) == (a + b) + parts[0];
  }

  lemma AttachNothing(parts: seq<string>)
    requires |parts| >= 1
    ensures Attach("", parts) == parts
  {
    assert "" + parts[0] == parts[0];
  }

  predicate FreeOf(s: string, separators: string) {
    forall i :: 0 <= i < |s| ==> s[i] != '\\' && s[i] !in separators
  }

  lemma {:induction false} SplitFreeOf(s: string, rest: string, separators: string)
    requires FreeOf(s, separators)
    ensures SplitUnescaped(s + rest, separators) == Attach(s, SplitUnescaped(rest, separators))
  {
    if s == "" {
      assert s + rest == rest;
      AttachNothing(SplitUnescaped(rest, separators));
    } else {
      SplitFreeOf(s[1..], rest, separators);
      assert (s + rest)[1..] == s[1..] + rest;
      AttachTwice([s[0]], s[1..], SplitUnescaped(rest, separators));
      assert [s[0]] + s[1..] == s;
    }
  }

  lemma SplitEscape(c: char, rest: string, separators: string)
    ensures SplitUnescaped(['\\', c] + rest, separators) == Attach(['\\', c], SplitUnescaped(rest, separators))
  {
    var s := ['\\', c] + rest;
    assert s[2..] == rest && s[..2] == ['\\', c];
  }

  /** No separator is a hex digit. */
  predicate NoDigits(separators: string) {
    forall d: nat | d < 16 :: HexByte(d) as int as char !in separators
  }

  lemma {:induction false} SplitHexText(b: Bytes, rest: string, separators: string)
    requires NoDigits(separators)
    ensures SplitUnescaped(HexText(b) + rest, separators) == Attach(HexText(b), SplitUnescaped(rest, separators))
  {
    hide SplitUnescaped, Attach;
    if b == [] {
      assert HexText(b) + rest == rest;
      AttachNothing(SplitUnescaped(rest, separators));
    } else {
      var n := b[0] as int;
      HexByteDigit(n % 16);
      var (high, low, more) := (HexByte(n / 16) as int as char, HexByte(n % 16) as int as char, HexText(b[1..]));
      SplitHexText(b[1..], rest, separators);
      assert HexText(b) + rest == ['\\', high] + ([low] + (more + rest));
      SplitEscape(high, [low] + (more + rest), separators);
      SplitFreeOf([low], more + rest, separators);
      AttachTwice([low], more, SplitUnescaped(rest, separators));
      AttachTwice(['\\', high], [low] + more, SplitUnescaped(rest, separators));
      assert ['\\', high] + ([low] + more) == HexText(b);
    }
  }

  predicate PlainFree(us: seq<Unit>, separators: string) {
    forall i :: 0 <= i < |us| && us[i].Plain? ==> us[i].c !in separators
  }

  lemma {:induction false} SplitText(us: seq<Unit>, rest: string, separators: string)
    requires ValidUnits(us) && PlainFree(us, separators) && NoDigits(separators)
    ensures SplitUnescaped(Text(us) + rest, separators) == Attach(Text(us), SplitUnescaped(rest, separators))
  {
    hide SplitUnescaped, Attach, HexText;
    if us == [] {
      assert Text(us) + rest == rest;
      AttachNothing(SplitUnescaped(rest, separators));
    } else {
      SplitText(us[1..], rest, separators);
      var (unit, more) := (UnitText(us[0]), Text(us[1..]));
      assert Text(us) + rest == unit + (more + rest);
      match us[0] {
        case Plain(c) => SplitFreeOf([c], more + rest, separators);
        case Quoted(c) => SplitEscape(c, more + rest, separators);
        case Hexed(c) => SplitHexText(Utf8Char(c), more + rest, separators);
      }
      AttachTwice(unit, more, SplitUnescaped(rest, separators));
    }
  }

  predicate PlainKey(key: string) {
    key != "" && Trim(key) == key && FreeOf(key, ",+=")
  }

  function PrintAttribute(a: Attribute, hex: char -> bool): string {
    a.key + "=" + PrintValue(a.value, hex)
  }

  /** The name as openssl prints it: `,` between RDNs, `+` between the attributes of one. */
  function PrintName(attributes: seq<Attribute>, separators: string, hex: char -> bool): string
    requires |attributes| == |separators| + 1
  {
    if |attributes| == 1 then PrintAttribute(attributes[0], hex)
    else PrintAttribute(attributes[0], hex) + [separators[0]] + PrintName(attributes[1..], separators[1..], hex)
  }

  function PrintedParts(attributes: seq<Attribute>, hex: char -> bool): (r: seq<string>)
    ensures |r| == |attributes|
  {
    seq(|attributes|, i requires 0 <= i < |attributes| => PrintAttribute(attributes[i], hex))
  }

  lemma SplitAttribute(a: Attribute, hex: char -> bool, rest: string)
    requires PlainKey(a.key)
    ensures SplitUnescaped(PrintAttribute(a, hex) + rest, ",+")
            == Attach(PrintAttribute(a, hex), SplitUnescaped(rest, ",+"))
  {
    hide SplitUnescaped, Attach, Text, UnitAt;
    var us := Units(a.value, hex);
    UnitsAreValid(a.value, hex);
    PlainUnitsAreFree(a.value, hex);
    var head := a.key + "=";
    SplitFreeOf(head, Text(us) + rest, ",+");
    assert PrintAttribute(a, hex) + rest == head + (Text(us) + rest);
    assert NoDigits(",+");
    SplitText(us, rest, ",+");
    AttachTwice(head, Text(us), SplitUnescaped(rest, ",+"));
  }

  lemma PlainUnitsAreFree(value: string, hex: char -> bool)
    ensures PlainFree(Units(value, hex), ",+")
  {
  }

  lemma {:induction false} SplitName(attributes: seq<Attribute>, separators: string, hex: char -> bool)
    requires |attributes| == |separators| + 1
    requires forall i :: 0 <= i < |separators| ==> separators[i] == ',' || separators[i] == '+'
    requires forall i :: 0 <= i < |attributes| ==> PlainKey(attributes[i].key)
    ensures SplitUnescaped(PrintName(attributes, separators, hex), ",+") == PrintedParts(attributes, hex)
  {
    hide SplitUnescaped, PrintAttribute, PlainKey;
    var first := PrintAttribute(attributes[0], hex);
    if |attributes| == 1 {
      SplitAttribute(attributes[0], hex, "");
      assert first + "" == first;
      SplitEmpty(",+");
    } else {
      SplitName(attributes[1..], separators[1..], hex);
      var rest := PrintName(attributes[1..], separators[1..], hex);
      SplitAttribute(attributes[0], hex, [separators[0]] + rest);
      assert PrintName(attributes, separators, hex) == first + ([separators[0]] + rest);
      SplitSeparator(separators[0], rest, ",+");
      assert first + "" == first;
    }
  }

  lemma SplitEmpty(separators: string)
    ensures SplitUnescaped("", separators) == [""]
  {
  }

  lemma SplitSeparator(sep: char, rest: string, separators: string)
    requires sep in separators && sep != '\\'
    ensures SplitUnescaped([sep] + rest, separators) == [""] + SplitUnescaped(rest, separators)
  {
    assert ([sep] + rest)[1..] == rest;
  }

  lemma AttributeBack(a: Attribute, hex: char -> bool, lossy: Bytes -> string)
    requires PlainKey(a.key) && forall s: string :: lossy(Utf8(s)) == s
    ensures var back := AttributeOf(PrintAttribute(a, hex), lossy);
      back.Some? && back.value.key == a.key && (back.value.value == a.value <==> Faithful(a.value, hex))
  {
    hide SplitUnescaped, Text, Trim, UnitAt, Faithful, Survives, Kept;
    var us := Units(a.value, hex);
    var text := Text(us);
    assert PrintAttribute(a, hex) == a.key + ("=" + text);
    SplitFreeOf(a.key, "=" + text, "=");
    SplitSeparator('=', text, "=");
    assert a.key + "" == a.key;
    var values := SplitUnescaped(text, "=");
    assert ([""] + values)[1..] == values;
    JoinSplitUnescaped(text, '=');
    UnitsAreValid(a.value, hex);
    TrimmedValue(us, lossy);
    SurvivesWhole(us);
    UnitChars(a.value, hex);
    FaithfulIsKept(a.value, hex);
  }

  lemma {:induction false} AttributesBack(attributes: seq<Attribute>, hex: char -> bool, lossy: Bytes -> string)
    requires forall s: string :: lossy(Utf8(s)) == s
    requires forall i :: 0 <= i < |attributes| ==> PlainKey(attributes[i].key)
    ensures var back := AttributesOf(PrintedParts(attributes, hex), lossy);
      && |back| == |attributes|
      && forall i :: 0 <= i < |attributes| ==>
           back[i].key == attributes[i].key
           && (back[i].value == attributes[i].value <==> Faithful(attributes[i].value, hex))
  {
    hide AttributeOf, PrintAttribute, PlainKey, Faithful;
    if attributes != [] {
      AttributesBack(attributes[1..], hex, lossy);
      AttributeBack(attributes[0], hex, lossy);
      assert PrintedParts(attributes, hex)[1..] == PrintedParts(attributes[1..], hex);
    }
  }

  /**
   Reading a printed name back gives the attributes it was printed from exactly when every value is faithful.
   `lossy` need only be right about valid UTF-8.
   */
  lemma SubjectAttributesInvertPrinting(attributes: seq<Attribute>, separators: string, hex: char -> bool,
                                        lossy: Bytes -> string)
    requires forall s: string :: lossy(Utf8(s)) == s
    requires |attributes| == |separators| + 1
    requires forall i :: 0 <= i < |separators| ==> separators[i] == ',' || separators[i] == '+'
    requires forall i :: 0 <= i < |attributes| ==> PlainKey(attributes[i].key)
    ensures SubjectAttributes(PrintName(attributes, separators, hex), lossy) == attributes
            <==> forall i :: 0 <= i < |attributes| ==> Faithful(attributes[i].value, hex)
  {
    hide Faithful, AttributesOf, PrintName, PrintedParts, PlainKey, SplitUnescaped;
    SplitName(attributes, separators, hex);
    AttributesBack(attributes, hex, lossy);
    var back := AttributesOf(PrintedParts(attributes, hex), lossy);
    if forall i :: 0 <= i < |attributes| ==> Faithful(attributes[i].value, hex) {
      forall i | 0 <= i < |attributes| ensures back[i] == attributes[i] {
      }
      assert back == attributes;
    }
  }

  lemma PrintedPlus(hex: char -> bool)
    requires forall c :: !hex(c)
    ensures Units("1+1", hex) == [Plain('1'), Quoted('+'), Plain('1')]
    ensures !Faithful("1+1", hex)
  {
    var value := "1+1";
    assert value[0] == '1' && value[1] == '+' && value[2] == '1';
    assert HexDigitOf('1' as int).Some?;
    assert UnitAt(value, 0, hex) == Plain('1') && UnitAt(value, 1, hex) == Quoted('+');
    assert UnitAt(value, 2, hex) == Plain('1');
    assert value[1] == '+' && !hex(value[1]) && HexDigitOf(value[1 + 1] as int).Some? && !hex(value[1 + 1]);
  }

  lemma ThreeUnits(a: Unit, b: Unit, c: Unit)
    ensures Text([a, b, c]) == UnitText(a) + (UnitText(b) + UnitText(c))
  {
    hide UnitText;
    OneUnit(c);
    assert [b, c][1..] == [c] && [a, b, c][1..] == [b, c];
    assert Text([b, c]) == UnitText(b) + Text([c]);
  }

  /** A common name "1+1" is printed `1\+1` and read back as something else. */
  lemma PlusBeforeDigitIsLost(lossy: Bytes -> string)
    requires forall s: string :: lossy(Utf8(s)) == s
    ensures SubjectAttributes("CN=1\\+1", lossy) != [Attribute("CN", "1+1")]
  {
    hide Faithful, SubjectAttributes, Text, Units, Trim;
    var hex := (c: char) => false;
    var attributes := [Attribute("CN", "1+1")];
    PrintedPlus(hex);
    ThreeUnits(Plain('1'), Quoted('+'), Plain('1'));
    assert PrintName(attributes, "", hex) == "CN" + "=" + ("1" + ("\\+" + "1"));
    assert PrintName(attributes, "", hex) == "CN=1\\+1";
    hide PrintName;
    AlreadyTrimmed("CN");
    SubjectAttributesInvertPrinting(attributes, "", hex, lossy);
  }
}
