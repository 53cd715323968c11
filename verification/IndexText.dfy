/**
 The rewrite of index.txt that revokes a certificate's earlier serials with it (src/openssl.rs). The file is
 lines of tab-separated fields: status, expiry, revocation, serial in hex, file name, subject.
 */
module IndexText {
  import opened Wrappers
  import opened Texts
  import CaTables

  // ----- lines -----

  function Unlines(lines: seq<string>): string {
    if lines == [] then "" else Unlines(lines[..|lines| - 1]) + lines[|lines| - 1] + "\n"
  }

  predicate IsLine(line: string) {
    Free(line, '\n') && Free(line, '\r')
  }

  lemma {:induction false} SplitTail(text: string, line: string)
    requires Free(line, '\n')
    requires |text| > 0 ==> text[|text| - 1] == '\n'
    ensures Split(text + line + "\n", '\n') == Split(text, '\n')[..|Split(text, '\n')| - 1] + [line, ""]
    ensures Split(text, '\n')[|Split(text, '\n')| - 1] == ""
  {
    hide Split;
    if text == "" {
      assert text + line + "\n" == line + ['\n'] + "";
      SplitHead(line, '\n', "");
      SplitEmpty();
    } else {
      var t, longer := text[1..], text + line + "\n";
      SplitTail(t, line);
      assert longer[1..] == t + line + "\n" && longer[0] == text[0];
      SplitFirst(text);
      SplitFirst(longer);
      if text[0] != '\n' {
        assert t != "";
        LastNewlineSplits(t);
      }
    }
  }

  lemma SplitFirst(text: string)
    requires text != ""
    ensures var parts := Split(text[1..], '\n');
      Split(text, '\n') ==
      if text[0] == '\n' then [""] + parts else [[text[0]] + parts[0]] + parts[1..]
  {
  }

  lemma {:induction false} LastNewlineSplits(text: string)
    requires text != "" && text[|text| - 1] == '\n'
    ensures |Split(text, '\n')| >= 2
  {
    if |text| > 1 {
      LastNewlineSplits(text[1..]);
    } else {
      assert Split(text, '\n') == [""] + Split("", '\n');
    }
  }

  lemma {:induction false} SplitUnlines(lines: seq<string>)
    requires forall i :: 0 <= i < |lines| ==> Free(lines[i], '\n')
    ensures Unlines(lines) != "" ==> Unlines(lines)[|Unlines(lines)| - 1] == '\n'
    ensures Split(Unlines(lines), '\n') == lines + [""]
  {
    hide Split, Free;
    if lines == [] {
      SplitEmpty();
    } else {
      var init, last := lines[..|lines| - 1], lines[|lines| - 1];
      SplitUnlines(init);
      SplitTail(Unlines(init), last);
      assert (init + [""])[..|init|] == init;
      assert lines + [""] == init + [last, ""];
    }
  }

  lemma SplitEmpty()
    ensures Split("", '\n') == [""]
  {
  }

  lemma LinesUnlines(lines: seq<string>)
    requires forall i :: 0 <= i < |lines| ==> IsLine(lines[i])
    ensures Lines(Unlines(lines)) == lines
  {
    hide Split, Unlines, DropCr, Free;
    SplitUnlines(lines);
    var pieces := lines + [""];
    forall i | 0 <= i < |lines| ensures DropCr(pieces[i]) == lines[i] {
      NoCr(lines[i], lines[i]);
    }
    if Unlines(lines) == "" {
      SplitEmpty();
      assert |lines + [""]| == |[""]|;
    }
  }

  lemma LinesAreLines(text: string)
    requires Free(text, '\r')
    ensures forall i :: 0 <= i < |Lines(text)| ==> IsLine(Lines(text)[i])
  {
    hide Split;
    SplitPieces(text, '\n');
    var pieces := Split(text, '\n');
    forall i | 0 <= i < |Lines(text)| ensures IsLine(Lines(text)[i]) {
      NoCr(pieces[i], text);
    }
  }

  lemma NoCr(piece: string, text: string)
    requires Free(text, '\r') && forall c :: c in piece ==> c in text
    ensures Free(piece, '\r') && DropCr(piece) == piece
  {
  }

  // ----- serials -----

  predicate IsHexDigit(c: char) {
    '0' <= c <= '9' || 'a' <= c <= 'f' || 'A' <= c <= 'F'
  }

  predicate IsHex(s: string) {
    forall i :: 0 <= i < |s| ==> IsHexDigit(s[i])
  }

  function HexDigit(c: char): (d: nat)
    requires IsHexDigit(c)
    ensures d < 16
  {
    if c <= '9' then c as int - '0' as int
    else if c <= 'F' then c as int - 'A' as int + 10
    else c as int - 'a' as int + 10
  }

  function HexValue(s: string): nat
    requires IsHex(s)
  {
    if s == "" then 0 else 16 * HexValue(s[..|s| - 1]) + HexDigit(s[|s| - 1])
  }

  function TrimZeros(s: string): (r: string)
    ensures IsHex(s) ==> IsHex(r)
    ensures r != "" ==> r[0] != '0'
  {
    if s != "" && s[0] == '0' then TrimZeros(s[1..]) else s
  }

  predicate SameSerial(a: string, b: string) {
    Lower(TrimZeros(a)) == Lower(TrimZeros(b))
  }

  lemma {:induction false} LeadingZero(s: string)
    requires IsHex(s) && s != "" && s[0] == '0'
    ensures HexValue(s) == HexValue(s[1..])
  {
    if |s| > 1 {
      LeadingZero(s[..|s| - 1]);
      assert s[..|s| - 1][1..] == s[1..][..|s| - 2];
    }
  }

  lemma {:induction false} TrimZerosKeepsValue(s: string)
    requires IsHex(s)
    ensures HexValue(TrimZeros(s)) == HexValue(s)
  {
    if s != "" && s[0] == '0' {
      TrimZerosKeepsValue(s[1..]);
      LeadingZero(s);
    }
  }

  lemma {:induction false} TrimmedIsPositive(s: string)
    requires IsHex(s) && s != "" && s[0] != '0'
    ensures HexValue(s) > 0
  {
    if |s| > 1 {
      TrimmedIsPositive(s[..|s| - 1]);
    }
  }

  lemma {:induction false} LowerValue(a: string, b: string)
    requires IsHex(a) && IsHex(b) && Lower(a) == Lower(b)
    ensures HexValue(a) == HexValue(b)
  {
    if a != "" {
      var n := |a| - 1;
      assert LowerChar(a[n]) == LowerChar(b[n]) by {
        assert Lower(a)[n] == Lower(b)[n];
      }
      assert Lower(a[..n]) == Lower(a)[..n] && Lower(b[..n]) == Lower(b)[..n];
      LowerValue(a[..n], b[..n]);
    }
  }

  /** Equal numbers have equal last digits, and equal numbers before them. */
  lemma LastDigits(a: string, b: string)
    requires a != "" && b != "" && IsHex(a) && IsHex(b) && HexValue(a) == HexValue(b)
    ensures HexValue(a[..|a| - 1]) == HexValue(b[..|b| - 1])
    ensures LowerChar(a[|a| - 1]) == LowerChar(b[|b| - 1])
  {
    hide HexDigit, LowerChar;
    SameDigit(a[|a| - 1], b[|b| - 1]);
  }

  lemma SameDigit(c: char, d: char)
    requires IsHexDigit(c) && IsHexDigit(d) && HexDigit(c) == HexDigit(d)
    ensures LowerChar(c) == LowerChar(d)
  {
  }

  lemma {:induction false} TrimmedValueIsUnique(a: string, b: string)
    requires IsHex(a) && IsHex(b) && (a != "" ==> a[0] != '0') && (b != "" ==> b[0] != '0')
    requires HexValue(a) == HexValue(b)
    ensures Lower(a) == Lower(b)
  {
    if a == "" {
      if b != "" {
        TrimmedIsPositive(b);
      }
    } else if b == "" {
      TrimmedIsPositive(a);
    } else {
      var (m, n) := (|a| - 1, |b| - 1);
      LastDigits(a, b);
      TrimmedValueIsUnique(a[..m], b[..n]);
      assert m == n by {
        assert |Lower(a[..m])| == |Lower(b[..n])|;
      }
      hide HexValue, HexDigit, LowerChar;
      forall i | 0 <= i < |a| ensures LowerChar(a[i]) == LowerChar(b[i]) {
        if i < m {
          assert Lower(a[..m])[i] == Lower(b[..n])[i];
        }
      }
    }
  }

  /** Two hex serials are the same text up to case and leading zeros exactly when they are the same number. */
  lemma SameSerialIsSameNumber(a: string, b: string)
    requires IsHex(a) && IsHex(b)
    ensures SameSerial(a, b) <==> HexValue(a) == HexValue(b)
  {
    TrimZerosKeepsValue(a);
    TrimZerosKeepsValue(b);
    if SameSerial(a, b) {
      LowerValue(TrimZeros(a), TrimZeros(b));
    }
    if HexValue(a) == HexValue(b) {
      TrimmedValueIsUnique(TrimZeros(a), TrimZeros(b));
    }
  }

  // ----- the rewrite -----

  function Fields(line: string): seq<string> {
    Split(line, '\t')
  }

  function Subject(line: string): string
    requires |Fields(line)| >= 6
  {
    Join(Fields(line)[5..], '\t')
  }

  predicate RevokedLine(line: string, serial: string) {
    var f := Fields(line);
    |f| >= 6 && f[0] == "R" && SameSerial(f[3], serial)
  }

  predicate ValidLine(line: string, subject: string) {
    |Fields(line)| >= 6 && Fields(line)[0] == "V" && Subject(line) == subject
  }

  /** Position of the first `R` line with this serial, or the number of lines. */
  function FirstRevoked(lines: seq<string>, serial: string): (k: nat)
    ensures k <= |lines|
    ensures k < |lines| ==> RevokedLine(lines[k], serial)
    ensures forall i :: 0 <= i < k ==> !RevokedLine(lines[i], serial)
  {
    if lines == [] || RevokedLine(lines[0], serial) then 0 else 1 + FirstRevoked(lines[1..], serial)
  }

  function RewriteLine(line: string, revocation: string, subject: string): string {
    if ValidLine(line, subject) then Join(Fields(line)[0 := "R"][2 := revocation], '\t') else line
  }

  function RewriteLines(lines: seq<string>, revocation: string, subject: string): (r: seq<string>)
    ensures |r| == |lines|
    ensures forall i :: 0 <= i < |lines| ==> r[i] == RewriteLine(lines[i], revocation, subject)
  {
    seq(|lines|, i requires 0 <= i < |lines| => RewriteLine(lines[i], revocation, subject))
  }

  function CountValid(lines: seq<string>, subject: string): nat {
    if lines == [] then 0
    else CountValid(lines[..|lines| - 1], subject) + if ValidLine(lines[|lines| - 1], subject) then 1 else 0
  }

  function Rewrite(index: string, serial: string): (string, nat) {
    var lines := Lines(index);
    var k := FirstRevoked(lines, serial);
    if k == |lines| then (index, 0)
    else
      var (revocation, subject) := (Fields(lines[k])[2], Subject(lines[k]));
      (Unlines(RewriteLines(lines, revocation, subject)), CountValid(lines, subject))
  }

  lemma RewriteStart(subject: string)
    ensures Unlines([]) == "" && CountValid([], subject) == 0
  {
  }

  lemma RewriteStep(lines: seq<string>, n: nat, revocation: string, subject: string)
    requires n < |lines|
    ensures var rewritten := RewriteLines(lines, revocation, subject);
      && Unlines(rewritten[..n + 1]) == Unlines(rewritten[..n]) + RewriteLine(lines[n], revocation, subject) + "\n"
      && CountValid(lines[..n + 1], subject)
         == CountValid(lines[..n], subject) + if ValidLine(lines[n], subject) then 1 else 0
  {
    hide Fields, RewriteLine, ValidLine;
    var rewritten := RewriteLines(lines, revocation, subject);
    assert rewritten[..n + 1][..n] == rewritten[..n] && lines[..n + 1][..n] == lines[..n];
  }

  method RevokeSupersededIndexEntries(index: string, serial: string) returns (out: string, count: nat)
    ensures (out, count) == Rewrite(index, serial)
  {
    hide Split, Join, Lines, Unlines, CountValid, SameSerial, FirstRevoked;
    var lines := Lines(index);
    var k := 0;
    while k < |lines| && !RevokedLine(lines[k], serial)
      invariant k <= |lines|
      invariant forall i :: 0 <= i < k ==> !RevokedLine(lines[i], serial)
    {
      k := k + 1;
    }
    if k == |lines| {
      return index, 0;
    }
    var revocation := Fields(lines[k])[2];
    var subject := Subject(lines[k]);
    ghost var rewritten := RewriteLines(lines, revocation, subject);
    out, count := "", 0;
    RewriteStart(subject);
    assert rewritten[..0] == [] && lines[..0] == [];
    for n := 0 to |lines|
      invariant out == Unlines(rewritten[..n])
      invariant count == CountValid(lines[..n], subject)
    {
      var fields := Fields(lines[n]);
      if |fields| >= 6 && fields[0] == "V" && Join(fields[5..], '\t') == subject {
        fields := fields[0 := "R"];
        fields := fields[2 := revocation];
        count := count + 1;
        out := out + Join(fields, '\t');
      } else {
        out := out + lines[n];
      }
      out := out + "\n";
      RewriteStep(lines, n, revocation, subject);
    }
    assert rewritten[..|lines|] == rewritten && lines[..|lines|] == lines;
  }

  // ----- what the rewrite does -----

  /** A rewritten line keeps all its fields but the status and the revocation. */
  lemma RewriteLineFields(line: string, revocation: string, subject: string)
    requires Free(revocation, '\t') && ValidLine(line, subject)
    ensures Fields(RewriteLine(line, revocation, subject)) == Fields(line)[0 := "R"][2 := revocation]
    ensures Subject(RewriteLine(line, revocation, subject)) == subject
    ensures !ValidLine(RewriteLine(line, revocation, subject), subject)
  {
    SplitPieces(line, '\t');
    SplitJoin(Fields(line)[0 := "R"][2 := revocation], '\t');
    assert Fields(RewriteLine(line, revocation, subject))[5..] == Fields(line)[5..];
  }

  lemma RewriteLineIsLine(line: string, revocation: string, subject: string)
    requires IsLine(line) && IsLine(revocation)
    ensures IsLine(RewriteLine(line, revocation, subject))
  {
    if ValidLine(line, subject) {
      var fields := Fields(line)[0 := "R"][2 := revocation];
      SplitPieces(line, '\t');
      var r := RewriteLine(line, revocation, subject);
      forall i | 0 <= i < |r| ensures r[i] != '\n' && r[i] != '\r' {
        JoinChars(fields, '\t', r[i]);
        if r[i] != '\t' {
          var j :| 0 <= j < |fields| && r[i] in fields[j];
          if j != 0 && j != 2 {
            assert fields[j] == Fields(line)[j];
            assert r[i] in line;
          }
        }
      }
    }
  }

  /** The revocation field and subject taken from the revoked line hold no tab in the former, no line end in either. */
  lemma RevokedLineParts(line: string)
    requires IsLine(line) && |Fields(line)| >= 6
    ensures IsLine(Fields(line)[2]) && Free(Fields(line)[2], '\t')
  {
    SplitPieces(line, '\t');
    var f := Fields(line)[2];
    assert forall c :: c in f ==> c in line;
  }

  /**
   On text without '\r': when no line carries the revoked serial nothing changes. Otherwise the text keeps its
   sequence of lines; exactly the `V` lines with the revoked line's subject change, in fields 0 and 2 only; no
   such `V` line is left; and the count is their number.
   */
  lemma RewriteRevokesSubject(index: string, serial: string)
    requires Free(index, '\r')
    ensures var lines := Lines(index);
      var k := FirstRevoked(lines, serial);
      var (out, count) := Rewrite(index, serial);
      && (k == |lines| ==> out == index && count == 0)
      && (k < |lines| ==>
            var subject := Subject(lines[k]);
            var after := Lines(out);
            && |after| == |lines| && count == CountValid(lines, subject)
            && (forall i :: 0 <= i < |lines| ==>
                  && !ValidLine(after[i], subject)
                  && if ValidLine(lines[i], subject)
                     then Fields(after[i]) == Fields(lines[i])[0 := "R"][2 := Fields(lines[k])[2]]
                     else after[i] == lines[i]))
  {
    var lines := Lines(index);
    var k := FirstRevoked(lines, serial);
    if k < |lines| {
      RewriteLinesOk(index, serial);
      var (revocation, subject) := (Fields(lines[k])[2], Subject(lines[k]));
      LinesAreLines(index);
      RevokedLineParts(lines[k]);
      forall i | 0 <= i < |lines| && ValidLine(lines[i], subject)
        ensures Fields(RewriteLine(lines[i], revocation, subject)) == Fields(lines[i])[0 := "R"][2 := revocation]
        ensures !ValidLine(RewriteLine(lines[i], revocation, subject), subject)
      {
        RewriteLineFields(lines[i], revocation, subject);
      }
    }
  }

  /** The fields of a line that carries the revoked certificate's serial. */
  ghost predicate Carries(f: seq<string>, serial: string) {
    |f| >= 6 && f[0] == "R" && SameSerial(f[3], serial)
  }

  /** The fields of a valid line under this subject. */
  ghost predicate Superseded(f: seq<string>, subject: string) {
    |f| >= 6 && f[0] == "V" && Join(f[5..], '\t') == subject
  }

  /** Where such lines stand. */
  ghost function SupersededAt(lines: seq<string>, subject: string): set<nat> {
    set i: nat | i < |lines| && Superseded(Split(lines[i], '\t'), subject)
  }

  lemma {:induction false} CountIsNumber(lines: seq<string>, subject: string)
    ensures CountValid(lines, subject) == |SupersededAt(lines, subject)|
  {
    hide Split, Join;
    if lines == [] {
      assert SupersededAt(lines, subject) == {};
    } else {
      var (init, n) := (lines[..|lines| - 1], |lines| - 1);
      CountIsNumber(init, subject);
      var fewer := SupersededAt(init, subject);
      assert n !in fewer;
      assert SupersededAt(lines, subject) == if ValidLine(lines[n], subject) then fewer + {n} else fewer;
    }
  }

  /**
   The rewrite in terms of the fields alone: with no line carrying the serial nothing changes; else the first such
   line, at `k`, gives its revocation to exactly the valid lines under its subject, and they are counted.
   */
  lemma RewriteByFields(index: string, serial: string, k: nat)
    requires Free(index, '\r') && k <= |Lines(index)|
    requires forall i :: 0 <= i < k ==> !Carries(Split(Lines(index)[i], '\t'), serial)
    requires k < |Lines(index)| ==> Carries(Split(Lines(index)[k], '\t'), serial)
    ensures var lines := Lines(index);
      var (out, count) := Rewrite(index, serial);
      && (k == |lines| ==> out == index && count == 0)
      && (k < |lines| ==>
            var revoked := Split(lines[k], '\t');
            var subject := Join(revoked[5..], '\t');
            && |Lines(out)| == |lines|
            && count == |SupersededAt(lines, subject)|
            && (forall i :: 0 <= i < |lines| && !Superseded(Split(lines[i], '\t'), subject) ==>
                  Lines(out)[i] == lines[i])
            && (forall i :: 0 <= i < |lines| && Superseded(Split(lines[i], '\t'), subject) ==>
                  Split(Lines(out)[i], '\t') == Split(lines[i], '\t')[0 := "R"][2 := revoked[2]]))
  {
    hide Split, Join, Lines, Rewrite, SameSerial;
    var lines := Lines(index);
    RewriteRevokesSubject(index, serial);
    var j := FirstRevoked(lines, serial);
    assert j < |lines| ==> Carries(Fields(lines[j]), serial);
    assert k < |lines| ==> RevokedLine(lines[k], serial);
    assert j == k;
    if k < |lines| {
      CountIsNumber(lines, Subject(lines[k]));
      forall i | 0 <= i < |lines|
        ensures ValidLine(lines[i], Subject(lines[k])) <==> Superseded(Split(lines[i], '\t'), Subject(lines[k]))
      {
      }
    }
  }

  lemma RewriteLinesOk(index: string, serial: string)
    requires Free(index, '\r') && FirstRevoked(Lines(index), serial) < |Lines(index)|
    ensures var lines := Lines(index);
      var k := FirstRevoked(lines, serial);
      Lines(Rewrite(index, serial).0) == RewriteLines(lines, Fields(lines[k])[2], Subject(lines[k]))
  {
    var lines := Lines(index);
    var k := FirstRevoked(lines, serial);
    var (revocation, subject) := (Fields(lines[k])[2], Subject(lines[k]));
    LinesAreLines(index);
    RevokedLineParts(lines[k]);
    var rewritten := RewriteLines(lines, revocation, subject);
    forall i | 0 <= i < |rewritten| ensures IsLine(rewritten[i]) {
      RewriteLineIsLine(lines[i], revocation, subject);
    }
    LinesUnlines(rewritten);
  }

  lemma {:induction false} CountNone(lines: seq<string>, subject: string)
    requires forall i :: 0 <= i < |lines| ==> !ValidLine(lines[i], subject)
    ensures CountValid(lines, subject) == 0
  {
    if lines != [] {
      CountNone(lines[..|lines| - 1], subject);
    }
  }

  /** Rewriting again changes nothing. */
  lemma RewriteIsIdempotent(index: string, serial: string)
    requires Free(index, '\r')
    ensures var out := Rewrite(index, serial).0;
      Rewrite(out, serial) == (out, 0)
  {
    hide Split, Join, Lines, Unlines;
    var lines := Lines(index);
    var k := FirstRevoked(lines, serial);
    if k < |lines| {
      var (revocation, subject) := (Fields(lines[k])[2], Subject(lines[k]));
      RewriteLinesOk(index, serial);
      RewriteRevokesSubject(index, serial);
      LinesAreLines(index);
      RevokedLineParts(lines[k]);
      var after := RewriteLines(lines, revocation, subject);
      assert RevokedLine(after[k], serial);
      var j := FirstRevoked(after, serial);
      assert j <= k;
      if ValidLine(lines[j], subject) {
        RewriteLineFields(lines[j], revocation, subject);
      } else {
        assert RevokedLine(lines[j], serial) && j == k;
      }
      assert Fields(after[j])[2] == revocation && Subject(after[j]) == subject;
      assert RewriteLines(after, revocation, subject) == after;
      CountNone(after, subject);
    }
  }

  // ----- the abstract index -----

  /** A line read as an entry of the signing protocol's index. */
  function ParseLine(line: string): Option<CaTables.Entry> {
    var f := Fields(line);
    if |f| >= 6 && (f[0] == "V" || f[0] == "R") && IsHex(f[3])
    then Some(CaTables.Entry(if f[0] == "V" then CaTables.Valid else CaTables.Revoked, HexValue(f[3]), Subject(line)))
    else None
  }

  predicate WellFormed(lines: seq<string>) {
    forall i :: 0 <= i < |lines| ==> ParseLine(lines[i]).Some?
  }

  function ParseLines(lines: seq<string>): (r: seq<CaTables.Entry>)
    requires WellFormed(lines)
    ensures |r| == |lines| && forall i :: 0 <= i < |lines| ==> r[i] == ParseLine(lines[i]).value
  {
    seq(|lines|, i requires 0 <= i < |lines| => ParseLine(lines[i]).value)
  }

  lemma FirstRevokedIsFindRevoked(lines: seq<string>, serial: string)
    requires WellFormed(lines) && IsHex(serial)
    ensures FirstRevoked(lines, serial) == CaTables.FindRevoked(ParseLines(lines), HexValue(serial))
  {
    var entries := ParseLines(lines);
    forall i | 0 <= i < |lines|
      ensures RevokedLine(lines[i], serial) <==>
              entries[i].serial == HexValue(serial) && entries[i].status == CaTables.Revoked
    {
      SameSerialIsSameNumber(Fields(lines[i])[3], serial);
    }
    var j := FirstRevoked(lines, serial);
    var k := CaTables.FindRevoked(entries, HexValue(serial));
  }

  /** What a line's rewrite does to the entry it says. */
  lemma ParseRewrittenLine(line: string, revocation: string, subject: string)
    requires Free(revocation, '\t') && ParseLine(line).Some?
    ensures var entry := ParseLine(line).value;
      ParseLine(RewriteLine(line, revocation, subject)) ==
      Some(if entry.status == CaTables.Valid && entry.subject == subject
           then entry.(status := CaTables.Revoked) else entry)
  {
    hide Split, Join, HexValue, IsHex;
    if ValidLine(line, subject) {
      RewriteLineFields(line, revocation, subject);
    }
  }

  /** The text rewrite is the protocol's `RevokeSuperseded` on what the text says. */
  lemma RewriteRefinesRevokeSuperseded(index: string, serial: string)
    requires Free(index, '\r') && WellFormed(Lines(index)) && IsHex(serial)
    ensures var after := Lines(Rewrite(index, serial).0);
      && WellFormed(after)
      && ParseLines(after) == CaTables.RevokeSuperseded(ParseLines(Lines(index)), HexValue(serial))
  {
    hide Split, Join, Lines, Unlines, HexValue, IsHex, RewriteLine, ParseLine, IsLine, Free;
    var lines := Lines(index);
    FirstRevokedIsFindRevoked(lines, serial);
    var k := FirstRevoked(lines, serial);
    if k < |lines| {
      var (revocation, subject) := (Fields(lines[k])[2], Subject(lines[k]));
      RewriteLinesOk(index, serial);
      LinesAreLines(index);
      RevokedLineParts(lines[k]);
      var expected := CaTables.RevokeSubject(ParseLines(lines), subject);
      forall i | 0 <= i < |lines|
        ensures ParseLine(RewriteLines(lines, revocation, subject)[i]) == Some(expected[i])
      {
        ParseRewrittenLine(lines[i], revocation, subject);
      }
      SubjectOfEntry(lines[k]);
    }
  }

  lemma SubjectOfEntry(line: string)
    requires ParseLine(line).Some?
    ensures |Fields(line)| >= 6 && ParseLine(line).value.subject == Subject(line)
  {
  }
}
