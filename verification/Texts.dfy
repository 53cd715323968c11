/** Splitting, joining and trimming text, as Rust's `str` methods do. */
module Texts {

  predicate Free(s: string, c: char) {
    c !in s
  }

  /** `s.split(sep)`: one more piece than there are separators. */
  function Split(s: string, sep: char): (parts: seq<string>)
    ensures |parts| >= 1
  {
    if s == "" then [""]
    else
      var rest := Split(s[1..], sep);
      if s[0] == sep then [""] + rest else [[s[0]] + rest[0]] + rest[1..]
  }

  function Join(parts: seq<string>, sep: char): string {
    if |parts| == 0 then ""
    else if |parts| == 1 then parts[0]
    else parts[0] + [sep] + Join(parts[1..], sep)
  }

  lemma {:induction false} JoinSplit(s: string, sep: char)
    ensures Join(Split(s, sep), sep) == s
  {
    if s != "" {
      JoinSplit(s[1..], sep);
      var rest := Split(s[1..], sep);
      var parts := Split(s, sep);
      if s[0] == sep {
        assert parts[1..] == rest;
      } else if |rest| > 1 {
        assert parts[1..] == rest[1..];
        assert Join(parts, sep) == [s[0]] + (rest[0] + [sep] + Join(rest[1..], sep));
      }
    }
  }

  /** Every character of a piece occurs in the text and is not the separator. */
  lemma {:induction false} SplitPieces(s: string, sep: char)
    ensures forall i :: 0 <= i < |Split(s, sep)| ==> Free(Split(s, sep)[i], sep)
    ensures forall i, c :: 0 <= i < |Split(s, sep)| && c in Split(s, sep)[i] ==> c in s
  {
    if s != "" {
      SplitPieces(s[1..], sep);
      var rest := Split(s[1..], sep);
      var parts := Split(s, sep);
      forall i | 0 <= i < |parts| ensures Free(parts[i], sep) && forall c :: c in parts[i] ==> c in s {
        assert s == [s[0]] + s[1..];
        if s[0] == sep {
          assert i > 0 ==> parts[i] == rest[i - 1];
        } else {
          assert parts[i] == if i == 0 then [s[0]] + rest[0] else rest[i];
        }
      }
    }
  }

  lemma {:induction false} SplitFree(s: string, sep: char)
    requires Free(s, sep)
    ensures Split(s, sep) == [s]
  {
    if s != "" {
      assert s == [s[0]] + s[1..];
      SplitFree(s[1..], sep);
    }
  }

  /** Splitting after a leading piece and a separator. */
  lemma {:induction false} SplitHead(head: string, sep: char, rest: string)
    requires Free(head, sep)
    ensures Split(head + [sep] + rest, sep) == [head] + Split(rest, sep)
  {
    var s := head + [sep] + rest;
    if head == "" {
      assert s[1..] == rest;
    } else {
      assert head == [head[0]] + head[1..];
      SplitHead(head[1..], sep, rest);
      assert s[1..] == head[1..] + [sep] + rest;
    }
  }

  lemma {:induction false} SplitJoin(parts: seq<string>, sep: char)
    requires |parts| >= 1 && forall i :: 0 <= i < |parts| ==> Free(parts[i], sep)
    ensures Split(Join(parts, sep), sep) == parts
  {
    if |parts| == 1 {
      SplitFree(parts[0], sep);
    } else {
      SplitJoin(parts[1..], sep);
      SplitHead(parts[0], sep, Join(parts[1..], sep));
    }
  }

  lemma {:induction false} JoinChars(parts: seq<string>, sep: char, c: char)
    requires c in Join(parts, sep)
    ensures c == sep || exists i :: 0 <= i < |parts| && c in parts[i]
  {
    if |parts| > 1 {
      if c !in parts[0] && c != sep {
        JoinChars(parts[1..], sep, c);
        var i :| 0 <= i < |parts[1..]| && c in parts[1..][i];
        assert c in parts[i + 1];
      }
    } else if |parts| == 1 {
      assert c in parts[0];
    }
  }

  /** `str::lines`: a final newline starts no line, and "\r\n" also ends one. */
  function Lines(text: string): seq<string> {
    if text == "" then []
    else
      var pieces := Split(text, '\n');
      var k := |pieces| - 1;
      var ended := seq(k, i requires 0 <= i < k => DropCr(pieces[i]));
      if pieces[k] == "" then ended else ended + [pieces[k]]
  }

  function DropCr(line: string): string {
    if line != "" && line[|line| - 1] == '\r' then line[..|line| - 1] else line
  }

  /** Rust's `char::is_whitespace`. */
  predicate IsWhitespace(c: char) {
    var n := c as int;
    9 <= n <= 13 || n == 32 || n == 0x85 || n == 0xA0 || n == 0x1680 || 0x2000 <= n <= 0x200A
    || n == 0x2028 || n == 0x2029 || n == 0x202F || n == 0x205F || n == 0x3000
  }

  function TrimStart(s: string): (r: string)
    ensures |r| <= |s| && r == s[|s| - |r|..]
    ensures r != "" ==> !IsWhitespace(r[0])
    ensures s != "" && !IsWhitespace(s[0]) ==> r == s
  {
    if s != "" && IsWhitespace(s[0]) then TrimStart(s[1..]) else s
  }

  function TrimEnd(s: string): (r: string)
    ensures |r| <= |s| && r == s[..|r|]
    ensures r != "" ==> !IsWhitespace(r[|r| - 1])
    ensures s != "" && !IsWhitespace(s[|s| - 1]) ==> r == s
  {
    if s != "" && IsWhitespace(s[|s| - 1]) then TrimEnd(s[..|s| - 1]) else s
  }

  /** `str::trim`. */
  function Trim(s: string): (r: string)
    ensures |r| <= |s|
    ensures r != "" ==> !IsWhitespace(r[0]) && !IsWhitespace(r[|r| - 1])
    ensures s != "" && !IsWhitespace(s[0]) && !IsWhitespace(s[|s| - 1]) ==> r == s
    ensures r == s <==> (s == "" || (!IsWhitespace(s[0]) && !IsWhitespace(s[|s| - 1])))
  {
    var t := TrimStart(s);
    var r := TrimEnd(t);
    assert r != "" ==> r[0] == t[0];
    r
  }

  lemma AlreadyTrimmed(s: string)
    requires s != "" && !IsWhitespace(s[0]) && !IsWhitespace(s[|s| - 1])
    ensures Trim(s) == s
  {
  }

  predicate AllBlank(s: string) {
    forall i :: 0 <= i < |s| ==> IsWhitespace(s[i])
  }

  lemma {:induction false} TrimStartBlanks(left: string, rest: string)
    requires AllBlank(left) && (rest != "" ==> !IsWhitespace(rest[0]))
    ensures TrimStart(left + rest) == rest
  {
    if left == "" {
      assert left + rest == rest;
    } else {
      assert (left + rest)[1..] == left[1..] + rest;
      TrimStartBlanks(left[1..], rest);
    }
  }

  lemma {:induction false} TrimEndBlanks(rest: string, right: string)
    requires AllBlank(right) && (rest != "" ==> !IsWhitespace(rest[|rest| - 1]))
    ensures TrimEnd(rest + right) == rest
  {
    if right == "" {
      assert rest + right == rest;
    } else {
      var n := |right| - 1;
      assert (rest + right)[..|rest + right| - 1] == rest + right[..n];
      TrimEndBlanks(rest, right[..n]);
    }
  }

  /** Trimming takes off exactly the blanks at both ends. */
  lemma TrimExactly(left: string, core: string, right: string)
    requires AllBlank(left) && AllBlank(right)
    requires core != "" && !IsWhitespace(core[0]) && !IsWhitespace(core[|core| - 1])
    ensures Trim(left + core + right) == core
  {
    assert left + core + right == left + (core + right);
    TrimStartBlanks(left, core + right);
    TrimEndBlanks(core, right);
  }

  lemma TrimBlank(s: string)
    requires AllBlank(s)
    ensures Trim(s) == ""
  {
    assert s + "" == s;
    TrimStartBlanks(s, "");
  }

  lemma TrimIs(s: string)
    ensures Trim(s) == TrimEnd(TrimStart(s))
  {
  }

  /** ASCII lower case. */
  function LowerChar(c: char): char {
    if 'A' <= c <= 'Z' then (c as int + 32) as char else c
  }

  function Lower(s: string): (r: string)
    ensures |r| == |s| && forall i :: 0 <= i < |s| ==> r[i] == LowerChar(s[i])
  {
    seq(|s|, i requires 0 <= i < |s| => LowerChar(s[i]))
  }
}
