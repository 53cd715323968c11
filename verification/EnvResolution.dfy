/**
 What resolving a text means (src/config.rs), in the words of the documentation: a set variable wins over the default,
 an unset one yields its default, and nothing else changes. Between them the cases below cover every text.
 */
module EnvResolution {
  import opened Wrappers
  import opened ByteStrings
  import opened Texts
  import opened EnvTokens

  /** [A-Za-z_][A-Za-z0-9_]* */
  predicate IsVariable(name: string) {
    && name != ""
    && forall i :: 0 <= i < |name| ==>
         || name[i] == '_' || 'a' <= name[i] <= 'z' || 'A' <= name[i] <= 'Z'
         || (i > 0 && '0' <= name[i] <= '9')
  }

  /** A token's text between its braces. */
  function Body(written: string, default: Option<string>): string {
    match default
    case None => written
    case Some(text) => written + ":" + text
  }

  function TokenText(written: string, default: Option<string>): string {
    "{{ENV:" + Body(written, default) + "}}"
  }

  /** The variable's value if it is set, else the decoded default, else nothing. */
  ghost predicate IsValue(value: string, name: string, default: Option<string>,
                          lookup: string -> Option<string>, decode: string -> string) {
    && (lookup(name).Some? ==> value == lookup(name).value)
    && (lookup(name).None? && default.Some? ==> value == decode(Trim(default.value)))
    && (lookup(name).None? && default.None? ==> value == "")
  }

  /** Neither the name nor the default closes the token early, and a colon comes first before the default. */
  ghost predicate Closes(written: string, default: Option<string>) {
    ':' !in written && !Contains(Body(written, default) + "}", "}}")
  }

  lemma VariablesAreValidNames(name: string)
    ensures IsValidEnvName(name) <==> IsVariable(name)
  {
    if name != "" && IsVariable(name) {
      assert !('0' <= name[0] <= '9');
    }
  }

  lemma ParsedBody(written: string, default: Option<string>, decode: string -> string)
    requires ':' !in written
    ensures ParseEnvToken(Body(written, default), decode) ==
      if Trim(written) == "" then Err(EmptyName)
      else if !IsVariable(Trim(written)) then Err(InvalidName(Trim(written)))
      else Ok((Trim(written), if default.Some? then Some(decode(Trim(default.value))) else None))
  {
    hide Trim, IsValidEnvName, IsVariable, Clear, Find;
    VariablesAreValidNames(Trim(written));
    NoColonIsClear(written);
    var body := Body(written, default);
    match default {
      case None =>
        NoColonInside(written);
      case Some(text) =>
        FindAfter(written, ":", text);
        assert body[..|written|] == written && body[|written| + 1..] == text;
    }
  }

  lemma NoColonInside(written: string)
    requires ':' !in written
    ensures Find(written, ":").None?
  {
    forall i: nat ensures !Occurs(written, ":", i) {
      if i < |written| {
        assert written[i..i + 1][0] == written[i];
      }
    }
  }

  lemma ScanBody(before: string, body: string, after: string, decode: string -> string)
    requires Clear(before, OPEN) && Clear(body, CLOSE)
    ensures ScanToken(before + (OPEN + body + CLOSE) + after, decode) ==
      match ParseEnvToken(body, decode)
      case Err(e) => Broken(e)
      case Ok(_) => Token(before, body, after)
  {
    hide ParseEnvToken, Find, ScanToken;
    var rest := before + (OPEN + body + CLOSE) + after;
    var tail := body + CLOSE + after;
    assert rest == before + OPEN + tail;
    FindAfter(before, OPEN, tail);
    var token := rest[|before|..];
    assert token == (OPEN + body) + CLOSE + after;
    OpenIsClear(body);
    FindAfter(OPEN + body, CLOSE, after);
    ScanIs(rest, decode);
    var end := |OPEN| + |body|;
    assert token[|OPEN|..end] == body;
    assert rest[|before| + end + |CLOSE|..] == after;
  }

  lemma MarkersAre(s: string)
    ensures Clear(s, OPEN) <==> !Contains(s + "{{ENV", "{{ENV:")
    ensures Clear(s, CLOSE) <==> !Contains(s + "}", "}}")
  {
    assert OPEN[..|OPEN| - 1] == "{{ENV";
    assert CLOSE[..|CLOSE| - 1] == "}";
  }

  /** The first token of a text is replaced by its value, what precedes it stays, and the rest is resolved by itself. */
  lemma TokenIsReplaced(before: string, written: string, default: Option<string>, after: string, value: string,
                        lookup: string -> Option<string>, decode: string -> string)
    requires !Contains(before + "{{ENV", "{{ENV:") && Closes(written, default) && IsVariable(Trim(written))
    requires IsValue(value, Trim(written), default, lookup, decode)
    ensures ResolveFrom(before + TokenText(written, default) + after, lookup, decode) ==
      match ResolveFrom(after, lookup, decode)
      case Err(e) => Err(e)
      case Ok((out, used)) => Ok((before + value + out, {Trim(written)} + used))
  {
    hide Contains, Clear, ParseEnvToken, ScanToken, Trim;
    var body := Body(written, default);
    MarkersAre(before);
    MarkersAre(body);
    ParsedBody(written, default, decode);
    ScanBody(before, body, after, decode);
    ResolveStep(before + TokenText(written, default) + after, lookup, decode);
  }

  lemma NoTokenStays(text: string, lookup: string -> Option<string>, decode: string -> string)
    requires !Contains(text, "{{ENV:")
    ensures ResolveFrom(text, lookup, decode) == Ok((text, {}))
  {
    hide Contains, Find;
    FreeHasNoToken(text, decode);
  }

  lemma BadNameFails(before: string, written: string, default: Option<string>, after: string,
                     lookup: string -> Option<string>, decode: string -> string)
    requires !Contains(before + "{{ENV", "{{ENV:") && Closes(written, default) && !IsVariable(Trim(written))
    ensures ResolveFrom(before + TokenText(written, default) + after, lookup, decode) ==
            Err(if Trim(written) == "" then EmptyName else InvalidName(Trim(written)))
  {
    hide Contains, Clear, ParseEnvToken, ScanToken, Trim;
    var body := Body(written, default);
    MarkersAre(before);
    MarkersAre(body);
    ParsedBody(written, default, decode);
    ScanBody(before, body, after, decode);
  }

  lemma UnclosedTokenFails(before: string, rest: string, lookup: string -> Option<string>, decode: string -> string)
    requires !Contains(before + "{{ENV", "{{ENV:") && !Contains(rest, "}}")
    ensures ResolveFrom(before + "{{ENV:" + rest, lookup, decode) == Err(Unterminated)
  {
    hide ParseEnvToken, ScanToken, Find, Clear;
    var text := before + "{{ENV:" + rest;
    MarkersAre(before);
    FindAfter(before, OPEN, rest);
    var token := text[|before|..];
    assert token == OPEN + rest;
    forall i: nat ensures !Occurs(token, CLOSE, i) {
      if i < |OPEN| {
        assert token[i] == OPEN[i];
      } else {
        OccurrenceIsContained(rest, "}}", i - |OPEN|);
        assert i + 2 <= |token| ==> token[i..i + 2] == rest[i - |OPEN|..i - |OPEN| + 2];
      }
    }
    ScanIs(text, decode);
  }

  function NameSet(names: seq<string>): set<string> {
    set i | 0 <= i < |names| :: names[i]
  }

  /**
   A text of literal pieces and tokens resolves to the same pieces with each token's value in its place: the variable's
   where it is set, the decoded default where it is not. The values are never scanned again.
   */
  lemma {:induction false} TokensAreReplaced(lits: seq<string>, names: seq<string>, defaults: seq<Option<string>>,
                                             tokens: seq<string>, values: seq<string>,
                                             lookup: string -> Option<string>, decode: string -> string)
    requires |lits| == |names| + 1 && |names| == |defaults| == |tokens| == |values|
    requires forall i :: 0 <= i < |names| ==> IsVariable(names[i]) && Closes(names[i], defaults[i])
    requires forall i :: 0 <= i < |names| ==> !Contains(lits[i] + "{{ENV", "{{ENV:")
    requires !Contains(lits[|names|], "{{ENV:")
    requires forall i :: 0 <= i < |names| ==> tokens[i] == TokenText(names[i], defaults[i])
    requires forall i :: 0 <= i < |names| ==> IsValue(values[i], names[i], defaults[i], lookup, decode)
    ensures ResolveFrom(Weave(lits, tokens), lookup, decode)
            == Ok((Weave(lits, values), NameSet(names)))
    decreases |names|
  {
    hide Contains, Closes, IsValue, IsVariable, TokenText, ResolveFrom;
    if names == [] {
      NoTokenStays(lits[0], lookup, decode);
      assert NameSet(names) == {};
    } else {
      TokensAreReplaced(lits[1..], names[1..], defaults[1..], tokens[1..], values[1..], lookup, decode);
      VariableIsTrimmed(names[0]);
      TokenIsReplaced(lits[0], names[0], defaults[0], Weave(lits[1..], tokens[1..]), values[0], lookup, decode);
      NamesSplit(names);
    }
  }

  lemma NamesSplit(names: seq<string>)
    requires names != []
    ensures NameSet(names) == {names[0]} + NameSet(names[1..])
  {
    forall i | 0 <= i < |names| ensures names[i] in {names[0]} + NameSet(names[1..]) {
      assert i > 0 ==> names[1..][i - 1] == names[i];
    }
  }

  lemma VariableIsTrimmed(name: string)
    requires IsVariable(name)
    ensures Trim(name) == name
  {
    hide Trim, Clear;
    VariablesAreValidNames(name);
    NameIsPlain(name);
  }

  /** Percent decoding, byte by byte: only a percent sign before two hex digits is an escape. */
  lemma PercentSays(x: byte, y: byte, rest: Bytes)
    ensures x != 37 ==> Unescaped([x] + rest) == [x] + Unescaped(rest)
    ensures Unescaped([37]) == [37] && (x != 37 ==> Unescaped([37, x]) == [37, x])
    ensures HexDigitOf(x).Some? && HexDigitOf(y).Some? ==>
      Unescaped([37, x, y] + rest) == [HexDigitOf(x).value * 16 + HexDigitOf(y).value] + Unescaped(rest)
    ensures HexDigitOf(x).None? || HexDigitOf(y).None? ==>
      Unescaped([37, x, y] + rest) == [37] + Unescaped([x, y] + rest)
  {
    hide HexDigitOf;
    assert ([x] + rest)[1..] == rest;
    var b := [37, x, y] + rest;
    assert b[1] == x && b[2] == y && b[3..] == rest && b[1..] == [x, y] + rest;
    assert [37, x][1..] == [x] && [x][1..] == [] && [37][1..] == [];
    assert Unescaped([]) == [];
  }

  /** With no tokens to put back, restoring leaves every text alone, placeholders and all. */
  lemma {:induction false} NothingToRestore(prefix: string, rest: string)
    requires prefix != ""
    ensures RestoreFrom(prefix, [], rest) == rest
    decreases |rest|
  {
    hide LeadingDigits, ParseDecimal, Contains;
    var found := Find(rest, prefix);
    if found.Some? {
      var after := rest[found.value + |prefix|..];
      NothingToRestore(prefix, after);
      assert rest == rest[..found.value] + prefix + after;
    }
  }
}
