/**
 Reading names that nobody printed (src/service.rs): what every text reads as, in terms of where a backslash hides a
 separator. Between them the cases cover every text.
 */
module DnReading {
  import opened Wrappers
  import opened ByteStrings
  import opened Texts
  import opened DnText

  /** Text whose backslashes each have a character to protect, and that holds no separator they do not protect. */
  predicate Closed(s: string, separators: string) {
    if s == "" then true
    else if s[0] == '\\' then |s| >= 2 && Closed(s[2..], separators)
    else s[0] !in separators && Closed(s[1..], separators)
  }

  lemma {:induction false} SplitClosed(s: string, rest: string, separators: string)
    requires Closed(s, separators)
    ensures SplitUnescaped(s + rest, separators) == Attach(s, SplitUnescaped(rest, separators))
  {
    hide SplitUnescaped, Attach;
    var parts := SplitUnescaped(rest, separators);
    if s == "" {
      assert s + rest == rest;
      AttachNothing(parts);
    } else if s[0] == '\\' {
      SplitClosed(s[2..], rest, separators);
      assert s + rest == ['\\', s[1]] + (s[2..] + rest);
      SplitEscape(s[1], s[2..] + rest, separators);
      AttachTwice(['\\', s[1]], s[2..], parts);
      assert ['\\', s[1]] + s[2..] == s;
    } else {
      SplitClosed(s[1..], rest, separators);
      assert s + rest == [s[0]] + (s[1..] + rest);
      SplitFreeOf([s[0]], s[1..] + rest, separators);
      AttachTwice([s[0]], s[1..], parts);
      assert [s[0]] + s[1..] == s;
    }
  }

  /** The text up to the first separator without protection is the first piece, and the rest is split by itself. */
  lemma SplitAtSeparator(first: string, sep: char, rest: string, separators: string)
    requires Closed(first, separators) && sep in separators && sep != '\\'
    ensures SplitUnescaped(first + [sep] + rest, separators) == [first] + SplitUnescaped(rest, separators)
  {
    hide SplitUnescaped;
    SplitClosed(first, [sep] + rest, separators);
    SplitSeparator(sep, rest, separators);
    assert first + [sep] + rest == first + ([sep] + rest);
    assert first + "" == first;
  }

  /** Without such a separator the text is one piece, a backslash at its end included. */
  lemma SplitWhole(last: string, lone: bool, separators: string)
    requires Closed(last, separators)
    ensures SplitUnescaped(if lone then last + "\\" else last, separators) == [if lone then last + "\\" else last]
  {
    hide SplitUnescaped;
    SplitClosed(last, if lone then "\\" else "", separators);
    SplitTrivial(separators);
    assert last + "" == last;
  }

  lemma SplitTrivial(separators: string)
    ensures SplitUnescaped("", separators) == [""] && SplitUnescaped("\\", separators) == ["\\"]
  {
  }

  /** What a piece `key=value` says: nothing when the key is blank, else the trimmed key and the unescaped value. */
  function Said(key: string, value: string, lossy: Bytes -> string): seq<Attribute> {
    if Trim(key) == "" then [] else [Attribute(Trim(key), lossy(Unescape(Utf8(Trim(value)))))]
  }

  /** A piece is cut at its first unprotected equals sign only; without one, all of it is the key. */
  lemma PieceSays(key: string, value: string, lossy: Bytes -> string)
    requires Closed(key, "=")
    ensures AttributesOf([key + "=" + value], lossy) == Said(key, value, lossy)
    ensures AttributesOf([key], lossy) == Said(key, "", lossy)
    ensures AttributesOf([key + "\\"], lossy) == Said(key + "\\", "", lossy)
  {
    hide SplitUnescaped, Trim, Unescape, Utf8, Join;
    SplitAtSeparator(key, '=', value, "=");
    JoinSplitUnescaped(value, '=');
    var pieces := [key] + SplitUnescaped(value, "=");
    assert pieces[1..] == SplitUnescaped(value, "=");
    SplitWhole(key, false, "=");
    SplitWhole(key, true, "=");
    NothingJoined();
    OnePart(key + "=" + value, lossy);
    OnePart(key, lossy);
    OnePart(key + "\\", lossy);
  }

  lemma NothingJoined()
    ensures Join([], '=') == ""
  {
  }

  lemma OnePart(part: string, lossy: Bytes -> string)
    ensures AttributesOf([part], lossy) == match AttributeOf(part, lossy) case Some(a) => [a] case None => []
  {
    assert [part][1..] == [];
    assert AttributesOf([], lossy) == [];
  }

  /** The attributes of a name are those of its first piece and then those of the rest. */
  lemma NameSays(first: string, sep: char, rest: string, lossy: Bytes -> string)
    requires Closed(first, ",+") && (sep == ',' || sep == '+')
    ensures SubjectAttributes(first + [sep] + rest, lossy)
            == AttributesOf([first], lossy) + SubjectAttributes(rest, lossy)
  {
    hide SplitUnescaped, AttributeOf;
    SplitAtSeparator(first, sep, rest, ",+");
    OnePart(first, lossy);
    assert ([first] + SplitUnescaped(rest, ",+"))[1..] == SplitUnescaped(rest, ",+");
  }

  lemma LastPieceSays(last: string, lone: bool, lossy: Bytes -> string)
    requires Closed(last, ",+")
    ensures var whole := if lone then last + "\\" else last;
      SubjectAttributes(whole, lossy) == AttributesOf([whole], lossy)
  {
    hide SplitUnescaped, AttributesOf;
    SplitWhole(last, lone, ",+");
  }

  /** Unescaping, byte by byte: a pair of hex digits, or a plus sign and one, is a number; else the backslash goes. */
  lemma UnescapeSays(x: byte, y: byte, rest: Bytes)
    ensures x != 92 ==> Unescape([x] + rest) == [x] + Unescape(rest)
    ensures Unescape([92]) == [92] && Unescape([92, x]) == [x]
    ensures HexDigitOf(x).Some? && HexDigitOf(y).Some? ==>
      Unescape([92, x, y] + rest) == [HexDigitOf(x).value * 16 + HexDigitOf(y).value] + Unescape(rest)
    ensures x == 43 && HexDigitOf(y).Some? ==>
      Unescape([92, x, y] + rest) == [HexDigitOf(y).value as byte] + Unescape(rest)
    ensures HexDigitOf(y).None? || (HexDigitOf(x).None? && x != 43) ==>
      Unescape([92, x, y] + rest) == [x] + Unescape([y] + rest)
  {
    assert HexDigitOf(43).None?;
    hide HexDigitOf;
    assert ([x] + rest)[1..] == rest;
    var b := [92, x, y] + rest;
    assert b[1] == x && b[2] == y && b[3..] == rest && b[2..] == [y] + rest;
    assert [92, x][2..] == [];
  }

  /** A backslash goes before a backslash, a slash, a plus and an equals sign, and before nothing else. */
  function EscapedChar(c: char): string {
    if c == '\\' || c == '/' || c == '+' || c == '=' then ['\\', c] else [c]
  }

  lemma EscapeFirst(c: char, rest: string)
    ensures EscapeSubject([c] + rest) == EscapedChar(c) + EscapeSubject(rest)
  {
    EscapeHead([c] + rest);
    assert ([c] + rest)[1..] == rest;
    hide EscapeSubject;
    assert (if c in "\\/+=" then "\\" else "") + [c] == EscapedChar(c);
  }

  lemma Regroup(a: string, b: string, c: string)
    ensures a + (b + c) == (a + b) + c
  {
  }

  lemma HeadAndTail(value: string, c: char)
    requires value != ""
    ensures value == [value[0]] + value[1..] && value + [c] == [value[0]] + (value[1..] + [c])
  {
  }

  lemma EscapeNil()
    ensures EscapeSubject("") == ""
  {
  }

  /** Escaping for `-subj` is done character by character. */
  lemma {:induction false} EscapeSays(value: string, c: char)
    ensures EscapeSubject("") == ""
    ensures EscapeSubject(value + [c]) == EscapeSubject(value) + EscapedChar(c)
  {
    EscapeNil();
    hide EscapeSubject, EscapedChar;
    if value == "" {
      assert value + [c] == [c] + "";
      EscapeFirst(c, "");
      assert EscapedChar(c) + "" == EscapedChar(c);
    } else {
      var (head, tail) := (value[0], value[1..]);
      EscapeSays(tail, c);
      EscapeFirst(head, tail);
      EscapeFirst(head, tail + [c]);
      HeadAndTail(value, c);
      Regroup(EscapedChar(head), EscapeSubject(tail), EscapedChar(c));
    }
  }
}
