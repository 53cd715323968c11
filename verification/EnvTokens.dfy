/** `{{ENV:NAME:default}}` tokens in the configuration (src/config.rs): lifted out, put back, resolved. */
module EnvTokens {
  import opened Wrappers
  import opened ByteStrings
  import opened Texts

  // ----- finding text -----

  predicate Occurs(s: string, pat: string, i: nat) {
    i + |pat| <= |s| && s[i..i + |pat|] == pat
  }

  ghost predicate Contains(s: string, pat: string) {
    exists i: nat :: Occurs(s, pat, i)
  }

  lemma OccurrenceIsContained(s: string, pat: string, i: nat)
    ensures Occurs(s, pat, i) ==> Contains(s, pat)
  {
    var here := Occurs(s, pat, i);
    assert here ==> Contains(s, pat);
  }

  function FindFrom(s: string, pat: string, i: nat): (r: Option<nat>)
    requires i <= |s|
    ensures r.Some? ==> i <= r.value && Occurs(s, pat, r.value)
    ensures forall k: nat :: i <= k && (r.Some? ==> k < r.value) ==> !Occurs(s, pat, k)
    decreases |s| - i
  {
    if Occurs(s, pat, i) then Some(i)
    else if i == |s| then None
    else FindFrom(s, pat, i + 1)
  }

  /** `str::find`: the first occurrence. */
  function Find(s: string, pat: string): (r: Option<nat>)
    ensures r.Some? ==> Occurs(s, pat, r.value)
    ensures forall k: nat :: (r.Some? ==> k < r.value) ==> !Occurs(s, pat, k)
    ensures r.None? <==> !Contains(s, pat)
  {
    FindFrom(s, pat, 0)
  }

  /** Nothing before `pat` completes an earlier occurrence of it. */
  ghost predicate Clear(head: string, pat: string)
    requires pat != ""
  {
    !Contains(head + pat[..|pat| - 1], pat)
  }

  lemma FindAfter(head: string, pat: string, tail: string)
    requires pat != "" && Clear(head, pat)
    ensures Find(head + pat + tail, pat) == Some(|head|)
  {
    var s := head + pat + tail;
    assert Occurs(s, pat, |head|);
    forall i: nat | i < |head| ensures !Occurs(s, pat, i) {
      OccurrenceIsContained(head + pat[..|pat| - 1], pat, i);
      assert (head + pat[..|pat| - 1])[i..i + |pat|] == s[i..i + |pat|];
    }
  }

  lemma FoundIsClear(s: string, pat: string)
    requires pat != "" && Find(s, pat).Some?
    ensures Clear(s[..Find(s, pat).value], pat)
    ensures s == s[..Find(s, pat).value] + pat + s[Find(s, pat).value + |pat|..]
  {
    var k := Find(s, pat).value;
    var head := s[..k] + pat[..|pat| - 1];
    assert head == s[..k + |pat| - 1];
    forall i: nat ensures !Occurs(head, pat, i) {
      if i < k {
        assert !Occurs(s, pat, i);
        assert head[i..i + |pat|] == s[i..i + |pat|];
      }
    }
  }

  lemma ContainsPart(s: string, lo: nat, hi: nat, pat: string)
    requires lo <= hi <= |s| && Contains(s[lo..hi], pat)
    ensures Contains(s, pat)
  {
    var part := s[lo..hi];
    var i: nat :| Occurs(part, pat, i);
    var k: nat := lo + i;
    SliceOfSlice(s, lo, hi, i, i + |pat|);
    OccurrenceIsContained(s, pat, k);
  }

  lemma SliceOfSlice(s: string, lo: nat, hi: nat, i: nat, j: nat)
    requires lo <= hi <= |s| && i <= j <= hi - lo
    ensures s[lo..hi][i..j] == s[lo + i..lo + j]
  {
    var (part, direct) := (s[lo..hi][i..j], s[lo + i..lo + j]);
    assert |part| == |direct|;
    forall k | 0 <= k < |part| ensures part[k] == direct[k] {
      assert part[k] == s[lo..hi][i + k] && s[lo..hi][i + k] == s[lo + (i + k)];
      assert direct[k] == s[lo + i + k];
    }
  }

  // ----- tokens -----

  const OPEN := "{{ENV:"
  const CLOSE := "}}"

  datatype EnvError = Unterminated | EmptyName | InvalidName(name: string)

  predicate IsNameChar(c: char) {
    'a' <= c <= 'z' || 'A' <= c <= 'Z' || '0' <= c <= '9' || c == '_'
  }

  predicate IsValidEnvName(name: string) {
    && name != ""
    && !('0' <= name[0] <= '9')
    && forall i :: 0 <= i < |name| ==> IsNameChar(name[i])
  }

  /** A token body, `NAME` or `NAME:default`. */
  function ParseEnvToken(inner: string, decode: string -> string): Result<(string, Option<string>), EnvError> {
    var colon := Find(inner, ":");
    var name := Trim(if colon.Some? then inner[..colon.value] else inner);
    var default := if colon.Some? then Some(decode(Trim(inner[colon.value + 1..]))) else None;
    if name == "" then Err(EmptyName)
    else if !IsValidEnvName(name) then Err(InvalidName(name))
    else Ok((name, default))
  }

  /** The first token of a text: what precedes it, its body, what follows it. */
  datatype Scan = NoToken | Broken(error: EnvError) | Token(before: string, body: string, after: string)

  function ScanToken(rest: string, decode: string -> string): (r: Scan)
    ensures r.Token? ==> rest == r.before + OPEN + r.body + CLOSE + r.after
    ensures r.Token? ==> |r.after| < |rest| && ParseEnvToken(r.body, decode).Ok?
  {
    match Find(rest, OPEN)
    case None => NoToken
    case Some(start) =>
      match Find(rest[start..], CLOSE)
      case None => Broken(Unterminated)
      case Some(end) =>
        TokenParts(rest, start, end);
        var body := rest[start..][|OPEN|..end];
        match ParseEnvToken(body, decode)
        case Err(e) => Broken(e)
        case Ok(_) => Token(rest[..start], body, rest[start + end + |CLOSE|..])
  }

  lemma CloseAfterOpen(token: string, end: nat)
    requires Occurs(token, OPEN, 0) && Occurs(token, CLOSE, end)
    ensures |OPEN| <= end
  {
    assert token[end] == token[end..end + 2][0];
    assert forall k :: 0 <= k < |OPEN| ==> token[k] == token[0..|OPEN|][k];
  }

  lemma TokenParts(rest: string, start: nat, end: nat)
    requires Occurs(rest, OPEN, start) && Occurs(rest[start..], CLOSE, end)
    ensures |OPEN| <= end && start + end + |CLOSE| <= |rest|
    ensures rest == rest[..start] + OPEN + rest[start..][|OPEN|..end] + CLOSE + rest[start + end + |CLOSE|..]
  {
    var token := rest[start..];
    assert token[0..|OPEN|] == rest[start..start + |OPEN|];
    CloseAfterOpen(token, end);
    assert token == OPEN + token[|OPEN|..end] + CLOSE + token[end + |CLOSE|..] by {
      assert token == token[0..|OPEN|] + token[|OPEN|..end] + token[end..end + |CLOSE|] + token[end + |CLOSE|..];
    }
    assert rest == rest[..start] + token;
    assert token[end + |CLOSE|..] == rest[start + end + |CLOSE|..];
  }

  // ----- the two stages, and the direct form -----

  function Digit(d: nat): char
    requires d < 10
  {
    ('0' as int + d) as char
  }

  function Decimal(n: nat): string {
    if n < 10 then [Digit(n)] else Decimal(n / 10) + [Digit(n % 10)]
  }

  function Placeholder(prefix: string, index: nat): string {
    prefix + Decimal(index) + "__"
  }

  function ExtractFrom(prefix: string, rest: string, tokens: seq<string>, decode: string -> string)
    : Result<(string, seq<string>), EnvError>
    decreases |rest|
  {
    match ScanToken(rest, decode)
    case NoToken => Ok((rest, tokens))
    case Broken(e) => Err(e)
    case Token(before, body, after) =>
      match ExtractFrom(prefix, after, tokens + [OPEN + body + CLOSE], decode)
      case Err(e) => Err(e)
      case Ok((out, all)) => Ok((before + Placeholder(prefix, |tokens|) + out, all))
  }

  function Value(lookup: string -> Option<string>, name: string, default: Option<string>): string {
    if lookup(name).Some? then lookup(name).value else if default.Some? then default.value else ""
  }

  function ResolveFrom(rest: string, lookup: string -> Option<string>, decode: string -> string)
    : Result<(string, set<string>), EnvError>
    decreases |rest|
  {
    match ScanToken(rest, decode)
    case NoToken => Ok((rest, {}))
    case Broken(e) => Err(e)
    case Token(before, body, after) =>
      match ResolveFrom(after, lookup, decode)
      case Err(e) => Err(e)
      case Ok((out, used)) =>
        var (name, default) := ParseEnvToken(body, decode).value;
        Ok((before + Value(lookup, name, default) + out, {name} + used))
  }

  function LeadingDigits(s: string): (n: nat)
    ensures n <= |s|
  {
    if s != "" && '0' <= s[0] <= '9' then 1 + LeadingDigits(s[1..]) else 0
  }

  function ParseDecimal(digits: string): nat
    requires forall i :: 0 <= i < |digits| ==> '0' <= digits[i] <= '9'
  {
    if digits == "" then 0
    else 10 * ParseDecimal(digits[..|digits| - 1]) + (digits[|digits| - 1] as int - '0' as int)
  }

  lemma {:induction false} LeadingDigitsAreDigits(s: string)
    ensures forall i :: 0 <= i < LeadingDigits(s) ==> '0' <= s[i] <= '9'
  {
    if s != "" && '0' <= s[0] <= '9' {
      LeadingDigitsAreDigits(s[1..]);
      forall i | 0 <= i < LeadingDigits(s) ensures '0' <= s[i] <= '9' {
        assert i > 0 ==> s[i] == s[1..][i - 1];
      }
    }
  }

  /** The token a placeholder stands for, and the text after the placeholder; `after` follows a prefix. */
  function TokenAt(after: string, tokens: seq<string>): (r: Option<(string, string)>)
    ensures r.Some? ==> |r.value.1| < |after|
  {
    var digits := LeadingDigits(after);
    LeadingDigitsAreDigits(after);
    if digits == 0 || ParseDecimal(after[..digits]) >= USIZE then None
    else if !Occurs(after, "__", digits) || ParseDecimal(after[..digits]) >= |tokens| then None
    else Some((tokens[ParseDecimal(after[..digits])], after[digits + 2..]))
  }

  function RestoreFrom(prefix: string, tokens: seq<string>, rest: string): string
    requires prefix != ""
    decreases |rest|
  {
    match Find(rest, prefix)
    case None => rest
    case Some(start) =>
      var after := rest[start + |prefix|..];
      match TokenAt(after, tokens)
      case Some((token, more)) => rest[..start] + token + RestoreFrom(prefix, tokens, more)
      case None => rest[..start] + prefix + RestoreFrom(prefix, tokens, after)
  }

  /** `resolve_str`. */
  function ResolveStr(prefix: string, tokens: seq<string>, scalar: string,
                      lookup: string -> Option<string>, decode: string -> string): Result<(string, set<string>), EnvError>
    requires prefix != ""
  {
    if Find(scalar, prefix).None? then Ok((scalar, {}))
    else ResolveFrom(RestoreFrom(prefix, tokens, scalar), lookup, decode)
  }

  // ----- the loops -----

  /** The whole result, when `out` is done and `more` is the result for the rest. */
  function Continue<T>(out: string, more: Result<(string, T), EnvError>): Result<(string, T), EnvError> {
    match more
    case Err(e) => Err(e)
    case Ok((tail, t)) => Ok((out + tail, t))
  }

  lemma ScanIs(rest: string, decode: string -> string)
    ensures Find(rest, OPEN).None? ==> ScanToken(rest, decode) == NoToken
    ensures Find(rest, OPEN).Some? ==>
      var start := Find(rest, OPEN).value;
      && start <= |rest|
      && var end := Find(rest[start..], CLOSE);
         && (end.None? ==> ScanToken(rest, decode) == Broken(Unterminated))
         && (end.Some? ==>
               && |OPEN| <= end.value && start + end.value + |CLOSE| <= |rest|
               && var body := rest[start..][|OPEN|..end.value];
                  var parsed := ParseEnvToken(body, decode);
                  && rest[start..][..end.value + |CLOSE|] == OPEN + body + CLOSE
                  && ScanToken(rest, decode) ==
                     if parsed.Err? then Broken(parsed.error)
                     else Token(rest[..start], body, rest[start + end.value + |CLOSE|..]))
  {
    hide ParseEnvToken, Find;
    if Find(rest, OPEN).Some? {
      var start := Find(rest, OPEN).value;
      var end := Find(rest[start..], CLOSE);
      if end.Some? {
        TokenParts(rest, start, end.value);
        var token := rest[start..];
        assert token[0..|OPEN|] == rest[start..start + |OPEN|];
        assert token[..end.value + |CLOSE|]
            == token[0..|OPEN|] + token[|OPEN|..end.value] + token[end.value..end.value + |CLOSE|];
      }
    }
  }

  lemma ContinueFromStart<T>(more: Result<(string, T), EnvError>)
    ensures Continue("", more) == more
  {
    if more.Ok? {
      assert "" + more.value.0 == more.value.0;
    }
  }

  lemma ContinueMore<T>(out: string, piece: string, more: Result<(string, T), EnvError>)
    ensures Continue(out, Continue(piece, more)) == Continue(out + piece, more)
  {
    if more.Ok? {
      assert out + (piece + more.value.0) == (out + piece) + more.value.0;
    }
  }

  lemma ExtractStep(prefix: string, rest: string, tokens: seq<string>, decode: string -> string)
    requires ScanToken(rest, decode).Token?
    ensures var scan := ScanToken(rest, decode);
      var (before, body, after) := (scan.before, scan.body, scan.after);
      ExtractFrom(prefix, rest, tokens, decode)
      == Continue(before + Placeholder(prefix, |tokens|),
                  ExtractFrom(prefix, after, tokens + [OPEN + body + CLOSE], decode))
  {
    hide ScanToken, Placeholder;
  }

  method Extract(text: string, prefix: string, decode: string -> string)
    returns (r: Result<(string, seq<string>), EnvError>)
    ensures r == ExtractFrom(prefix, text, [], decode)
  {
    hide ParseEnvToken, Placeholder, ScanToken, Find;
    var tokens: seq<string>, out, rest := [], "", text;
    ghost var whole := ExtractFrom(prefix, text, [], decode);
    ContinueFromStart(whole);
    while Find(rest, OPEN).Some?
      invariant whole == Continue(out, ExtractFrom(prefix, rest, tokens, decode))
      decreases |rest|
    {
      ScanIs(rest, decode);
      var start := Find(rest, OPEN).value;
      var token := rest[start..];
      var end := Find(token, CLOSE);
      if end.None? {
        return Err(Unterminated);
      }
      var parsed := ParseEnvToken(token[|OPEN|..end.value], decode);
      if parsed.Err? {
        return Err(parsed.error);
      }
      ExtractStep(prefix, rest, tokens, decode);
      token := token[..end.value + |CLOSE|];
      ghost var before, piece := out, rest[..start] + Placeholder(prefix, |tokens|);
      out := out + rest[..start];
      out := out + Placeholder(prefix, |tokens|);
      assert out == before + piece;
      tokens := tokens + [token];
      rest := rest[start + |token|..];
      ContinueMore(before, piece, ExtractFrom(prefix, rest, tokens, decode));
    }
    ScanIs(rest, decode);
    return Ok((out + rest, tokens));
  }

  method ResolveEnvTokensWithUsed(text: string, lookup: string -> Option<string>, decode: string -> string)
    returns (r: Result<(string, set<string>), EnvError>)
    ensures r == ResolveFrom(text, lookup, decode)
  {
    hide ParseEnvToken, Value, ScanToken, Find;
    var out, rest, used: set<string> := "", text, {};
    ghost var whole := ResolveFrom(text, lookup, decode);
    ContinueUsedFromStart(whole);
    while Find(rest, OPEN).Some?
      invariant whole == ContinueUsed(out, used, ResolveFrom(rest, lookup, decode))
      decreases |rest|
    {
      ScanIs(rest, decode);
      var start := Find(rest, OPEN).value;
      var token := rest[start..];
      var end := Find(token, CLOSE);
      if end.None? {
        return Err(Unterminated);
      }
      var parsed := ParseEnvToken(token[|OPEN|..end.value], decode);
      if parsed.Err? {
        return Err(parsed.error);
      }
      var (name, default) := parsed.value;
      ResolveStep(rest, lookup, decode);
      ghost var before, names := out, used;
      ghost var piece := rest[..start] + Value(lookup, name, default);
      out := out + rest[..start];
      used := used + {name};
      out := out + Value(lookup, name, default);
      assert out == before + piece;
      rest := token[end.value + |CLOSE|..];
      ContinueUsedMore(before, names, piece, name, ResolveFrom(rest, lookup, decode));
    }
    ScanIs(rest, decode);
    return Ok((out + rest, used));
  }

  function ContinueUsed(out: string, used: set<string>, more: Result<(string, set<string>), EnvError>)
    : Result<(string, set<string>), EnvError>
  {
    match more
    case Err(e) => Err(e)
    case Ok((tail, names)) => Ok((out + tail, used + names))
  }

  lemma ContinueUsedFromStart(more: Result<(string, set<string>), EnvError>)
    ensures ContinueUsed("", {}, more) == more
  {
    if more.Ok? {
      assert "" + more.value.0 == more.value.0;
      assert {} + more.value.1 == more.value.1;
    }
  }

  lemma ContinueUsedMore(out: string, used: set<string>, piece: string, name: string,
                         more: Result<(string, set<string>), EnvError>)
    ensures ContinueUsed(out, used, ContinueUsed(piece, {name}, more)) == ContinueUsed(out + piece, used + {name}, more)
  {
    if more.Ok? {
      assert out + (piece + more.value.0) == (out + piece) + more.value.0;
      assert used + ({name} + more.value.1) == (used + {name}) + more.value.1;
    }
  }

  lemma ResolveStep(rest: string, lookup: string -> Option<string>, decode: string -> string)
    requires ScanToken(rest, decode).Token?
    ensures var scan := ScanToken(rest, decode);
      && ParseEnvToken(scan.body, decode).Ok?
      && var (name, default) := ParseEnvToken(scan.body, decode).value;
         ResolveFrom(rest, lookup, decode)
         == ContinueUsed(scan.before + Value(lookup, name, default), {name}, ResolveFrom(scan.after, lookup, decode))
  {
    hide Value, ParseEnvToken;
  }

  method RestoreTokens(prefix: string, tokens: seq<string>, scalar: string) returns (restored: string)
    requires prefix != ""
    ensures restored == RestoreFrom(prefix, tokens, scalar)
  {
    hide TokenAt, Find;
    var rest := scalar;
    restored := "";
    while Find(rest, prefix).Some?
      invariant restored + RestoreFrom(prefix, tokens, rest) == RestoreFrom(prefix, tokens, scalar)
      decreases |rest|
    {
      var start := Find(rest, prefix).value;
      var after := rest[start + |prefix|..];
      var token := TokenAt(after, tokens);
      ghost var before, done := restored, rest;
      restored := restored + rest[..start];
      match token {
        case Some((text, more)) =>
          restored := restored + text;
          rest := more;
          Regroup(before, done[..start], text, RestoreFrom(prefix, tokens, rest));
        case None =>
          restored := restored + prefix;
          rest := after;
          Regroup(before, done[..start], prefix, RestoreFrom(prefix, tokens, rest));
      }
    }
    restored := restored + rest;
  }

  lemma Regroup(a: string, b: string, c: string, d: string)
    ensures a + (b + c + d) == a + b + c + d
  {
  }

  // ----- placeholders stand for their tokens -----

  predicate AllDigits(s: string) {
    forall i :: 0 <= i < |s| ==> '0' <= s[i] <= '9'
  }

  lemma {:induction false} DecimalParses(n: nat)
    ensures Decimal(n) != "" && AllDigits(Decimal(n)) && ParseDecimal(Decimal(n)) == n
  {
    if n >= 10 {
      DecimalParses(n / 10);
      assert Decimal(n)[..|Decimal(n)| - 1] == Decimal(n / 10);
    } else {
      assert Decimal(n)[..0] == "";
    }
  }

  lemma {:induction false} LeadingDigitsOf(digits: string, rest: string)
    requires AllDigits(digits) && (rest == "" || !('0' <= rest[0] <= '9'))
    ensures LeadingDigits(digits + rest) == |digits|
  {
    if digits == "" {
      assert digits + rest == rest;
    } else {
      LeadingDigitsOf(digits[1..], rest);
      assert (digits + rest)[1..] == digits[1..] + rest;
    }
  }

  lemma PlaceholderIsToken(index: nat, tokens: seq<string>, rest: string)
    requires index < |tokens| < USIZE
    ensures TokenAt(Decimal(index) + "__" + rest, tokens) == Some((tokens[index], rest))
  {
    hide Decimal, ParseDecimal, LeadingDigits;
    var after := Decimal(index) + "__" + rest;
    DecimalParses(index);
    assert after == Decimal(index) + ("__" + rest);
    LeadingDigitsOf(Decimal(index), "__" + rest);
    var k := |Decimal(index)|;
    assert after[..k] == Decimal(index) && after[k..k + 2] == "__" && after[k + 2..] == rest;
  }

  lemma RestorePlaceholder(prefix: string, tokens: seq<string>, before: string, index: nat, rest: string)
    requires prefix != "" && Clear(before, prefix) && index < |tokens| < USIZE
    ensures RestoreFrom(prefix, tokens, before + Placeholder(prefix, index) + rest)
            == before + tokens[index] + RestoreFrom(prefix, tokens, rest)
  {
    hide TokenAt, Decimal, Find;
    var after := Decimal(index) + "__" + rest;
    var scalar := before + Placeholder(prefix, index) + rest;
    assert scalar == before + prefix + after;
    FindAfter(before, prefix, after);
    PlaceholderIsToken(index, tokens, rest);
    assert scalar[|before| + |prefix|..] == after && scalar[..|before|] == before;
  }

  /** Twelve hexadecimal digits of a random number, as the prefix uses them. */
  predicate IsNonce(nonce: string) {
    |nonce| == 12 && forall i :: 0 <= i < |nonce| ==> '0' <= nonce[i] <= '9' || 'a' <= nonce[i] <= 'f'
  }

  /** The prefix without its last underscore. */
  function Stem(nonce: string): string {
    "__minica_env_" + nonce
  }

  function Prefix(nonce: string): string {
    Stem(nonce) + "_"
  }

  /** Two underscores in a row stand only at the start of a prefix. */
  lemma NoOtherDouble(nonce: string, i: nat)
    requires IsNonce(nonce) && 0 < i && i + 1 < |Prefix(nonce)|
    ensures !(Prefix(nonce)[i] == '_' && Prefix(nonce)[i + 1] == '_')
  {
    var p := Prefix(nonce);
    assert |"__minica_env_"| == 13;
    if i >= 13 {
      assert p[i] == nonce[i - 13];
    } else {
      assert p[i] == "__minica_env_"[i];
      assert i < 12 ==> p[i + 1] == "__minica_env_"[i + 1];
      assert i == 12 ==> p[i + 1] == nonce[0];
    }
  }

  /** A text without the stem cannot run into a prefix that follows it. */
  lemma StemFreeIsClear(before: string, nonce: string)
    requires IsNonce(nonce) && !Contains(before, Stem(nonce))
    ensures Clear(before, Prefix(nonce))
  {
    var p := Prefix(nonce);
    var s := before + p[..|p| - 1];
    forall i: nat ensures !Occurs(s, p, i) {
      if i + |p| <= |before| + 1 {
        OccurrenceIsContained(before, Stem(nonce), i);
        assert s[i..i + |p| - 1] == before[i..i + |p| - 1];
        assert s[i..i + |p|][..|p| - 1] == s[i..i + |p| - 1];
        assert p[..|p| - 1] == Stem(nonce);
      } else if i + |p| <= |s| {
        var k: nat := |before| - i;
        NoOtherDouble(nonce, k);
        assert s[|before|] == p[0] && s[|before| + 1] == p[1];
        assert s[i..i + |p|][k] == s[|before|] && s[i..i + |p|][k + 1] == s[|before| + 1];
      }
    }
  }

  // ----- literal pieces and tokens -----

  /** Pieces of literal text with something between each two. */
  function Weave(lits: seq<string>, mids: seq<string>): string
    requires |lits| == |mids| + 1
  {
    if mids == [] then lits[0] else lits[0] + mids[0] + Weave(lits[1..], mids[1..])
  }

  function TokenTexts(bodies: seq<string>): (r: seq<string>)
    ensures |r| == |bodies|
  {
    seq(|bodies|, i requires 0 <= i < |bodies| => OPEN + bodies[i] + CLOSE)
  }

  function Placeholders(prefix: string, indices: seq<nat>): (r: seq<string>)
    ensures |r| == |indices|
  {
    seq(|indices|, i requires 0 <= i < |indices| => Placeholder(prefix, indices[i]))
  }

  function Selected(tokens: seq<string>, indices: seq<nat>): (r: seq<string>)
    requires forall i :: 0 <= i < |indices| ==> indices[i] < |tokens|
    ensures |r| == |indices|
  {
    seq(|indices|, i requires 0 <= i < |indices| => tokens[indices[i]])
  }

  function UpTo(from: nat, n: nat): (r: seq<nat>)
    ensures |r| == n
  {
    seq(n, i requires 0 <= i < n => from + i)
  }

  predicate WellFormed(bodies: seq<string>, decode: string -> string) {
    forall i :: 0 <= i < |bodies| ==> ParseEnvToken(bodies[i], decode).Ok?
  }

  function BodyValue(body: string, lookup: string -> Option<string>, decode: string -> string): string
    requires ParseEnvToken(body, decode).Ok?
  {
    Value(lookup, ParseEnvToken(body, decode).value.0, ParseEnvToken(body, decode).value.1)
  }

  function Values(bodies: seq<string>, lookup: string -> Option<string>, decode: string -> string): (r: seq<string>)
    requires WellFormed(bodies, decode)
    ensures |r| == |bodies|
  {
    seq(|bodies|, i requires 0 <= i < |bodies| => BodyValue(bodies[i], lookup, decode))
  }

  function Names(bodies: seq<string>, decode: string -> string): set<string>
    requires WellFormed(bodies, decode)
  {
    if bodies == [] then {} else {ParseEnvToken(bodies[0], decode).value.0} + Names(bodies[1..], decode)
  }

  /** A text as literal pieces and token bodies. */
  function Pieces(rest: string, decode: string -> string): (r: Result<(seq<string>, seq<string>), EnvError>)
    ensures r.Ok? ==> |r.value.0| == |r.value.1| + 1
    decreases |rest|
  {
    match ScanToken(rest, decode)
    case NoToken => Ok(([rest], []))
    case Broken(e) => Err(e)
    case Token(before, body, after) =>
      match Pieces(after, decode)
      case Err(e) => Err(e)
      case Ok((lits, bodies)) => Ok(([before] + lits, [body] + bodies))
  }

  /** No piece hides the start of a token, no body its end. */
  ghost predicate Separated(lits: seq<string>, bodies: seq<string>)
    requires |lits| == |bodies| + 1
  {
    && (forall i :: 0 <= i < |bodies| ==> Clear(lits[i], OPEN) && Clear(bodies[i], CLOSE))
    && !Contains(lits[|bodies|], OPEN)
  }

  lemma ScanParts(rest: string, decode: string -> string)
    requires ScanToken(rest, decode).Token?
    ensures var scan := ScanToken(rest, decode);
      ParseEnvToken(scan.body, decode).Ok? && Clear(scan.before, OPEN) && Clear(scan.body, CLOSE)
  {
    hide ParseEnvToken;
    var start := Find(rest, OPEN).value;
    FoundIsClear(rest, OPEN);
    var token := rest[start..];
    var end := Find(token, CLOSE).value;
    FoundIsClear(token, CLOSE);
    TokenParts(rest, start, end);
    ClearPart(token[..end], |OPEN|, CLOSE);
    assert token[|OPEN|..end] == token[..end][|OPEN|..];
  }

  lemma ClearPart(head: string, from: nat, pat: string)
    requires pat != "" && Clear(head, pat) && from <= |head|
    ensures Clear(head[from..], pat)
  {
    var whole := head + pat[..|pat| - 1];
    assert head[from..] + pat[..|pat| - 1] == whole[from..|whole|];
    if Contains(whole[from..|whole|], pat) {
      ContainsPart(whole, from, |whole|, pat);
    }
  }

  /** The pieces of a text give the text back, and can be told apart in it. */
  lemma {:induction false} PiecesOfText(rest: string, decode: string -> string)
    requires Pieces(rest, decode).Ok?
    ensures var (lits, bodies) := Pieces(rest, decode).value;
      rest == Weave(lits, TokenTexts(bodies)) && WellFormed(bodies, decode) && Separated(lits, bodies)
    decreases |rest|
  {
    hide ParseEnvToken, Clear, ScanToken;
    var scan := ScanToken(rest, decode);
    if scan.Token? {
      PiecesOfText(scan.after, decode);
      ScanParts(rest, decode);
      var (lits, bodies) := Pieces(scan.after, decode).value;
      assert ([scan.before] + lits)[1..] == lits;
      assert TokenTexts([scan.body] + bodies)[1..] == TokenTexts(bodies);
      assert Weave([scan.before] + lits, TokenTexts([scan.body] + bodies))
          == scan.before + (OPEN + scan.body + CLOSE) + scan.after;
    } else {
      NoTokenIsFree(rest, decode);
    }
  }

  lemma NoTokenIsFree(rest: string, decode: string -> string)
    requires ScanToken(rest, decode).NoToken?
    ensures !Contains(rest, OPEN)
  {
    hide ParseEnvToken;
  }

  lemma ScanSeparated(before: string, body: string, after: string, decode: string -> string)
    requires Clear(before, OPEN) && Clear(body, CLOSE) && ParseEnvToken(body, decode).Ok?
    ensures ScanToken(before + (OPEN + body + CLOSE) + after, decode) == Token(before, body, after)
  {
    hide ParseEnvToken, Find, ScanToken;
    var rest := before + (OPEN + body + CLOSE) + after;
    var tail := body + CLOSE + after;
    assert rest == before + OPEN + tail;
    FindAfter(before, OPEN, tail);
    var token := rest[|before|..];
    assert token == (OPEN + body) + CLOSE + after;
    OpenIsClear(body);
    FindAfter(OPEN + body, CLOSE, after);
    ScanIs(rest, decode);
    var end := |OPEN| + |body|;
    assert token[|OPEN|..end] == body;
    assert rest[|before| + end + |CLOSE|..] == after;
  }

  /** The opening marker holds no brace that could close. */
  lemma OpenIsClear(body: string)
    requires Clear(body, CLOSE)
    ensures Clear(OPEN + body, CLOSE)
  {
    var whole, part := (OPEN + body) + CLOSE[..1], body + CLOSE[..1];
    assert whole == OPEN + part;
    forall i: nat ensures !Occurs(whole, CLOSE, i) {
      if i < |OPEN| {
        assert whole[i] == OPEN[i];
      } else {
        OccurrenceIsContained(part, CLOSE, i - |OPEN|);
        assert i + 2 <= |whole| ==> whole[i..i + 2] == part[i - |OPEN|..i - |OPEN| + 2];
      }
    }
  }

  lemma {:induction false} PiecesOfWeave(lits: seq<string>, bodies: seq<string>, decode: string -> string)
    requires |lits| == |bodies| + 1 && Separated(lits, bodies) && WellFormed(bodies, decode)
    ensures Pieces(Weave(lits, TokenTexts(bodies)), decode) == Ok((lits, bodies))
    decreases |bodies|
  {
    hide ParseEnvToken, Clear, Contains, ScanToken, Find;
    if bodies == [] {
      FreeHasNoToken(lits[0], decode);
      assert lits == [lits[0]];
    } else {
      assert Separated(lits[1..], bodies[1..]);
      PiecesOfWeave(lits[1..], bodies[1..], decode);
      assert TokenTexts(bodies)[1..] == TokenTexts(bodies[1..]);
      ScanSeparated(lits[0], bodies[0], Weave(lits[1..], TokenTexts(bodies[1..])), decode);
      assert lits == [lits[0]] + lits[1..] && bodies == [bodies[0]] + bodies[1..];
    }
  }

  lemma FreeHasNoToken(rest: string, decode: string -> string)
    requires !Contains(rest, OPEN)
    ensures ScanToken(rest, decode).NoToken?
  {
    hide ParseEnvToken;
  }

  lemma {:induction false} ExtractIsWeave(prefix: string, rest: string, tokens: seq<string>, decode: string -> string)
    ensures ExtractFrom(prefix, rest, tokens, decode) ==
      match Pieces(rest, decode)
      case Err(e) => Err(e)
      case Ok((lits, bodies)) =>
        Ok((Weave(lits, Placeholders(prefix, UpTo(|tokens|, |bodies|))), tokens + TokenTexts(bodies)))
    decreases |rest|
  {
    hide ParseEnvToken, ScanToken, Placeholder;
    var scan := ScanToken(rest, decode);
    if scan.Token? {
      var tokens' := tokens + [OPEN + scan.body + CLOSE];
      ExtractIsWeave(prefix, scan.after, tokens', decode);
      var more := Pieces(scan.after, decode);
      if more.Ok? {
        var (lits, bodies) := more.value;
        var (lits', bodies') := ([scan.before] + lits, [scan.body] + bodies);
        var marks := Placeholders(prefix, UpTo(|tokens|, |bodies'|));
        assert lits'[1..] == lits;
        assert marks[1..] == Placeholders(prefix, UpTo(|tokens'|, |bodies|));
        assert tokens' + TokenTexts(bodies) == tokens + TokenTexts(bodies');
      }
    } else if scan.NoToken? {
      assert tokens + TokenTexts([]) == tokens;
    }
  }

  lemma {:induction false} ResolveIsWeave(rest: string, lookup: string -> Option<string>, decode: string -> string)
    requires Pieces(rest, decode).Ok? ==> WellFormed(Pieces(rest, decode).value.1, decode)
    ensures ResolveFrom(rest, lookup, decode) ==
      match Pieces(rest, decode)
      case Err(e) => Err(e)
      case Ok((lits, bodies)) => Ok((Weave(lits, Values(bodies, lookup, decode)), Names(bodies, decode)))
    decreases |rest|
  {
    hide ParseEnvToken, ScanToken, Value;
    var scan := ScanToken(rest, decode);
    if scan.Token? {
      ScanParts(rest, decode);
      var more := Pieces(scan.after, decode);
      if more.Ok? {
        PiecesOfText(scan.after, decode);
        var (lits, bodies) := more.value;
        ResolveIsWeave(scan.after, lookup, decode);
        assert ([scan.body] + bodies)[1..] == bodies;
        assert ([scan.before] + lits)[1..] == lits;
        assert Values([scan.body] + bodies, lookup, decode)[1..] == Values(bodies, lookup, decode);
      } else {
        ResolveIsWeave(scan.after, lookup, decode);
      }
    }
  }

  /** Restoring: every placeholder becomes its token, whatever the order and the literal text between them. */
  lemma {:induction false} RestoreWeave(nonce: string, tokens: seq<string>, lits: seq<string>, indices: seq<nat>)
    requires IsNonce(nonce) && |tokens| < USIZE && |lits| == |indices| + 1
    requires forall i :: 0 <= i < |indices| ==> indices[i] < |tokens|
    requires forall i :: 0 <= i < |lits| ==> !Contains(lits[i], Stem(nonce))
    ensures RestoreFrom(Prefix(nonce), tokens, Weave(lits, Placeholders(Prefix(nonce), indices)))
            == Weave(lits, Selected(tokens, indices))
    decreases |indices|
  {
    hide Contains, Placeholder, RestoreFrom, Stem;
    var p := Prefix(nonce);
    if indices == [] {
      RestoreNothing(nonce, tokens, lits[0]);
    } else {
      RestoreWeave(nonce, tokens, lits[1..], indices[1..]);
      assert Placeholders(p, indices)[1..] == Placeholders(p, indices[1..]);
      assert Selected(tokens, indices)[1..] == Selected(tokens, indices[1..]);
      StemFreeIsClear(lits[0], nonce);
      RestorePlaceholder(p, tokens, lits[0], indices[0], Weave(lits[1..], Placeholders(p, indices[1..])));
    }
  }

  lemma RestoreNothing(nonce: string, tokens: seq<string>, lit: string)
    requires !Contains(lit, Stem(nonce))
    ensures RestoreFrom(Prefix(nonce), tokens, lit) == lit && Find(lit, Prefix(nonce)).None?
  {
    var p := Prefix(nonce);
    var found := Find(lit, p);
    if found.Some? {
      assert lit[found.value..found.value + |p|][..|p| - 1] == lit[found.value..found.value + |p| - 1];
      assert p[..|p| - 1] == Stem(nonce);
      OccurrenceIsContained(lit, Stem(nonce), found.value);
    }
  }

  // ----- the theorems -----

  /**
   A configuration string made of literal pieces and tokens resolves to the same pieces with each token's value in
   its place. The values may hold anything, tokens included: they are never scanned again.
   */
  lemma ResolveSplicesValues(lits: seq<string>, bodies: seq<string>, lookup: string -> Option<string>,
                             decode: string -> string)
    requires |lits| == |bodies| + 1 && Separated(lits, bodies) && WellFormed(bodies, decode)
    ensures ResolveFrom(Weave(lits, TokenTexts(bodies)), lookup, decode)
            == Ok((Weave(lits, Values(bodies, lookup, decode)), Names(bodies, decode)))
  {
    PiecesOfWeave(lits, bodies, decode);
    ResolveIsWeave(Weave(lits, TokenTexts(bodies)), lookup, decode);
  }

  /** Every text that resolves is made of such pieces, in one way only. */
  lemma ResolvedTextHasPieces(text: string, lookup: string -> Option<string>, decode: string -> string,
                              lits: seq<string>, bodies: seq<string>)
    requires |lits| == |bodies| + 1 && ResolveFrom(text, lookup, decode).Ok?
    ensures Pieces(text, decode).Ok?
    ensures text == Weave(lits, TokenTexts(bodies)) && Separated(lits, bodies) && WellFormed(bodies, decode)
            <==> Pieces(text, decode) == Ok((lits, bodies))
  {
    hide ResolveFrom, Pieces, WellFormed, Separated, TokenTexts, Weave;
    if Pieces(text, decode).Ok? {
      PiecesOfText(text, decode);
    }
    ResolveIsWeave(text, lookup, decode);
    if text == Weave(lits, TokenTexts(bodies)) && Separated(lits, bodies) && WellFormed(bodies, decode) {
      PiecesOfWeave(lits, bodies, decode);
    }
  }

  lemma WeaveHas(lits: seq<string>, mids: seq<string>, i: nat)
    requires |lits| == |mids| + 1
    ensures i < |lits| ==> exists lo, hi :: 0 <= lo <= hi <= |Weave(lits, mids)| && Weave(lits, mids)[lo..hi] == lits[i]
    ensures i < |mids| ==> exists lo, hi :: 0 <= lo <= hi <= |Weave(lits, mids)| && Weave(lits, mids)[lo..hi] == mids[i]
    decreases i
  {
    var w := Weave(lits, mids);
    if mids == [] {
      assert w[0..|w|] == lits[0];
    } else {
      var k := |lits[0]| + |mids[0]|;
      var more := Weave(lits[1..], mids[1..]);
      assert w[0..|lits[0]|] == lits[0] && w[|lits[0]|..k] == mids[0];
      if i > 0 {
        WeaveHas(lits[1..], mids[1..], i - 1);
        forall lo, hi | 0 <= lo <= hi <= |more| ensures w[k + lo..k + hi] == more[lo..hi] {
        }
        if i < |lits| {
          var lo, hi :| 0 <= lo <= hi <= |more| && more[lo..hi] == lits[1..][i - 1];
          assert w[k + lo..k + hi] == lits[i];
        }
        if i < |mids| {
          var lo, hi :| 0 <= lo <= hi <= |more| && more[lo..hi] == mids[1..][i - 1];
          assert w[k + lo..k + hi] == mids[i];
        }
      }
    }
  }

  /** Whatever a whole text does not contain, its literal pieces do not contain. */
  lemma PieceIsFree(lits: seq<string>, mids: seq<string>, i: nat, pat: string)
    requires |lits| == |mids| + 1 && i < |lits| && !Contains(Weave(lits, mids), pat)
    ensures !Contains(lits[i], pat)
  {
    WeaveHas(lits, mids, i);
    var w := Weave(lits, mids);
    var lo, hi :| 0 <= lo <= hi <= |w| && w[lo..hi] == lits[i];
    if Contains(w[lo..hi], pat) {
      ContainsPart(w, lo, hi, pat);
    }
  }

  lemma {:induction false} WeaveLength(lits: seq<string>, bodies: seq<string>)
    requires |lits| == |bodies| + 1
    ensures |bodies| <= |Weave(lits, TokenTexts(bodies))|
  {
    if bodies != [] {
      WeaveLength(lits[1..], bodies[1..]);
      assert TokenTexts(bodies)[1..] == TokenTexts(bodies[1..]);
    }
  }

  /** With at least one placeholder the scalar is seen to hold the prefix. */
  lemma PlaceholderIsSeen(prefix: string, lits: seq<string>, indices: seq<nat>)
    requires |lits| == |indices| + 1 && indices != []
    ensures Contains(Weave(lits, Placeholders(prefix, indices)), prefix)
  {
    hide Contains, Placeholder;
    var marks := Placeholders(prefix, indices);
    WeaveHas(lits, marks, 0);
    var w := Weave(lits, marks);
    var lo, hi :| 0 <= lo <= hi <= |w| && w[lo..hi] == marks[0];
    PlaceholderHasPrefix(prefix, indices[0]);
    ContainsPart(w, lo, hi, prefix);
  }

  lemma PlaceholderHasPrefix(prefix: string, index: nat)
    ensures Contains(Placeholder(prefix, index), prefix)
  {
    assert Placeholder(prefix, index)[0..|prefix|] == prefix;
    OccurrenceIsContained(Placeholder(prefix, index), prefix, 0);
  }

  /**
   Lifting the tokens out, putting them back in the resulting text and resolving gives what resolving the text
   directly gives: the same string, the same names used, the same error.
   */
  lemma TwoStagesAreOne(text: string, nonce: string, lookup: string -> Option<string>, decode: string -> string)
    requires IsNonce(nonce) && !Contains(text, Stem(nonce)) && |text| < USIZE
    ensures ResolveFrom(text, lookup, decode) ==
      match ExtractFrom(Prefix(nonce), text, [], decode)
      case Err(e) => Err(e)
      case Ok((out, tokens)) => ResolveStr(Prefix(nonce), tokens, out, lookup, decode)
  {
    hide Contains, ParseEnvToken, Weave, RestoreFrom, Stem, Placeholder, Separated;
    var p := Prefix(nonce);
    ExtractIsWeave(p, text, [], decode);
    if Pieces(text, decode).Err? {
      ResolveIsWeave(text, lookup, decode);
    } else {
      PiecesOfText(text, decode);
      ResolveIsWeave(text, lookup, decode);
      var (lits, bodies) := Pieces(text, decode).value;
      var tokens := TokenTexts(bodies);
      WeaveLength(lits, bodies);
      forall i | 0 <= i < |lits| ensures !Contains(lits[i], Stem(nonce)) {
        PieceIsFree(lits, tokens, i, Stem(nonce));
      }
      var indices := UpTo(0, |bodies|);
      RestoreWeave(nonce, tokens, lits, indices);
      assert Selected(tokens, indices) == tokens;
      assert [] + tokens == tokens;
      if bodies == [] {
        RestoreNothing(nonce, tokens, text);
        NoBodies(lits, text, p, lookup, decode);
      } else {
        PlaceholderIsSeen(p, lits, indices);
      }
    }
  }

  lemma NoBodies(lits: seq<string>, text: string, prefix: string, lookup: string -> Option<string>,
                 decode: string -> string)
    requires |lits| == 1 && text == Weave(lits, TokenTexts([]))
    ensures Weave(lits, Placeholders(prefix, UpTo(0, 0))) == text
    ensures Weave(lits, Values([], lookup, decode)) == text && Names([], decode) == {}
  {
  }

  // ----- percent escapes -----

  /** The byte a `%HH` at the start of `b` stands for. */
  function Escape(b: seq<byte>): Option<byte> {
    if |b| >= 3 && b[0] == 37 && HexDigitOf(b[1]).Some? && HexDigitOf(b[2]).Some?
    then Some(16 * HexDigitOf(b[1]).value + HexDigitOf(b[2]).value) else None
  }

  function Unescaped(b: seq<byte>): seq<byte> {
    if b == [] then []
    else if Escape(b).Some? then [Escape(b).value] + Unescaped(b[3..])
    else [b[0]] + Unescaped(b[1..])
  }

  predicate HasEscape(b: seq<byte>) {
    exists i :: 0 <= i < |b| && Escape(b[i..]).Some?
  }

  lemma UnescapeStep(value: seq<byte>, index: nat)
    requires index < |value|
    ensures var e := Escape(value[index..]);
      if e.Some?
      then index + 3 <= |value| && Unescaped(value[index..]) == [e.value] + Unescaped(value[index + 3..])
      else Unescaped(value[index..]) == [value[index]] + Unescaped(value[index + 1..])
  {
    var rest := value[index..];
    assert rest[1..] == value[index + 1..];
    assert |rest| >= 3 ==> rest[3..] == value[index + 3..];
  }

  lemma EscapeAt(value: seq<byte>, index: nat)
    requires index < |value|
    ensures Escape(value[index..]) ==
      if value[index] == 37 && index + 2 < |value|
         && HexDigitOf(value[index + 1]).Some? && HexDigitOf(value[index + 2]).Some?
      then Some(16 * HexDigitOf(value[index + 1]).value + HexDigitOf(value[index + 2]).value) else None
  {
    hide HexDigitOf;
  }

  method PercentDecode(value: seq<byte>) returns (decoded: seq<byte>, changed: bool)
    ensures decoded == Unescaped(value)
    ensures !changed ==> decoded == value
    ensures changed <==> HasEscape(value)
  {
    hide HexDigitOf, Escape, Unescaped;
    decoded, changed := [], false;
    var index := 0;
    while index < |value|
      invariant index <= |value|
      invariant decoded + Unescaped(value[index..]) == Unescaped(value)
      invariant !changed ==> decoded == value[..index]
      invariant changed ==> HasEscape(value)
      invariant !changed ==> forall i :: 0 <= i < index ==> Escape(value[i..]).None?
    {
      UnescapeStep(value, index);
      EscapeAt(value, index);
      if value[index] == 37 && index + 2 < |value| {
        var high, low := HexDigitOf(value[index + 1]), HexDigitOf(value[index + 2]);
        if high.Some? && low.Some? {
          var b: byte := 16 * high.value + low.value;
          AppendOne(decoded, b, Unescaped(value[index + 3..]));
          decoded := decoded + [b];
          changed := true;
          index := index + 3;
          continue;
        }
      }
      AppendOne(decoded, value[index], Unescaped(value[index + 1..]));
      decoded := decoded + [value[index]];
      index := index + 1;
    }
    UnescapedNothing();
    assert value[|value|..] == [] && decoded + [] == decoded;
  }

  lemma UnescapedNothing()
    ensures Unescaped([]) == []
  {
  }

  lemma AppendOne(decoded: seq<byte>, b: byte, more: seq<byte>)
    ensures decoded + ([b] + more) == decoded + [b] + more
  {
  }

  /** Writing every byte of a chosen set, at least `%` itself, as `%HH`. */
  function Escaped(b: seq<byte>, plain: byte -> bool): seq<byte> {
    if b == [] then []
    else (if plain(b[0]) && b[0] != 37 then [b[0]]
          else var n := b[0] as int; [37, HexByte(n / 16), HexByte(n % 16)])
         + Escaped(b[1..], plain)
  }

  /** Decoding undoes escaping, so any value can be written, a closing brace too. */
  lemma {:induction false} UnescapeEscaped(b: seq<byte>, plain: byte -> bool)
    ensures Unescaped(Escaped(b, plain)) == b
  {
    if b != [] {
      UnescapeEscaped(b[1..], plain);
      var e := Escaped(b, plain);
      var more := Escaped(b[1..], plain);
      if plain(b[0]) && b[0] != 37 {
        assert e[1..] == more;
      } else {
        var n := b[0] as int;
        HexByteDigit(n / 16);
        HexByteDigit(n % 16);
        assert e[3..] == more;
        assert Escape(e) == Some(b[0]);
      }
      assert b == [b[0]] + b[1..];
    }
  }

  // ----- defaults -----

  /** `percent_decode_best_effort`: escapes that do not make UTF-8 leave the text as written. */
  function BestEffort(value: string, fromUtf8: Bytes -> Option<string>): string {
    if !HasEscape(Utf8(value)) then value
    else
      match fromUtf8(Unescaped(Utf8(value)))
      case Some(text) => text
      case None => value
  }

  method PercentDecodeBestEffort(value: string, fromUtf8: Bytes -> Option<string>) returns (r: string)
    ensures r == BestEffort(value, fromUtf8)
  {
    hide HasEscape, Unescaped, Utf8;
    var decoded, changed := PercentDecode(Utf8(value));
    if !changed {
      return value;
    }
    var text := fromUtf8(decoded);
    return if text.Some? then text.value else value;
  }

  /** `String::from_utf8`. */
  ghost predicate DecodesUtf8(fromUtf8: Bytes -> Option<string>) {
    forall b: Bytes, s: string :: fromUtf8(b) == Some(s) <==> b == Utf8(s)
  }

  predicate IsAscii(b: Bytes) {
    forall i :: 0 <= i < |b| ==> b[i] < 128
  }

  function AsciiText(b: Bytes): (s: string)
    requires IsAscii(b)
    ensures |s| == |b| && forall i :: 0 <= i < |b| ==> s[i] as int == b[i]
  {
    seq(|b|, i requires 0 <= i < |b| => b[i] as int as char)
  }

  lemma {:induction false} AsciiTextBytes(b: Bytes)
    requires IsAscii(b)
    ensures Utf8(AsciiText(b)) == b
  {
    if b == [] {
      assert AsciiText(b) == "";
    } else {
      hide Utf8Char, Utf8;
      AsciiTextBytes(b[1..]);
      var c := b[0] as int as char;
      assert AsciiText(b) == [c] + AsciiText(b[1..]);
      Utf8Cons(c, AsciiText(b[1..]));
      assert Utf8Char(c) == [b[0]];
      assert b == [b[0]] + b[1..];
    }
  }

  lemma {:induction false} NothingToUnescape(b: Bytes)
    requires !HasEscape(b)
    ensures Unescaped(b) == b
  {
    hide Escape;
    if b != [] {
      assert b[0..] == b && Escape(b[0..]).None?;
      forall i | 0 <= i < |b[1..]| ensures Escape(b[1..][i..]).None? {
        assert b[1..][i..] == b[i + 1..];
      }
      NothingToUnescape(b[1..]);
    }
  }

  /** Bytes that may be written as they are: printable, not blank, not a closing brace. */
  ghost predicate PrintsPlainly(plain: byte -> bool) {
    forall b: byte :: plain(b) ==> 33 <= b < 127 && b != 125
  }

  lemma {:induction false} EscapedIsPrintable(b: Bytes, plain: byte -> bool)
    requires PrintsPlainly(plain)
    ensures forall i :: 0 <= i < |Escaped(b, plain)| ==> 33 <= Escaped(b, plain)[i] < 127 && Escaped(b, plain)[i] != 125
  {
    if b != [] {
      EscapedIsPrintable(b[1..], plain);
    }
  }

  lemma DecodedDefault(value: string, plain: byte -> bool, fromUtf8: Bytes -> Option<string>, text: string)
    requires DecodesUtf8(fromUtf8) && Utf8(text) == Escaped(Utf8(value), plain)
    ensures BestEffort(text, fromUtf8) == value
  {
    hide Unescaped, Escaped, Utf8, HasEscape;
    UnescapeEscaped(Utf8(value), plain);
    if !HasEscape(Utf8(text)) {
      NothingToUnescape(Utf8(text));
      assert fromUtf8(Utf8(text)) == Some(text) && fromUtf8(Utf8(value)) == Some(value);
    }
  }

  lemma NameIsPlain(name: string)
    requires IsValidEnvName(name)
    ensures Trim(name) == name && Clear(name, ":") && '}' !in name
  {
    hide Trim, Clear;
    assert IsNameChar(name[0]) && IsNameChar(name[|name| - 1]);
    AlreadyTrimmed(name);
    assert ':' !in name && '}' !in name;
    NoColonIsClear(name);
  }

  lemma NoColonIsClear(name: string)
    requires ':' !in name
    ensures Clear(name, ":")
  {
    assert name + ":"[..0] == name;
    forall i: nat ensures !Occurs(name, ":", i) {
      if i < |name| {
        assert name[i..i + 1][0] == name[i];
      }
    }
  }

  lemma NoBraceIsClear(text: string)
    requires '}' !in text
    ensures Clear(text, CLOSE)
  {
    var whole := text + CLOSE[..1];
    forall i: nat ensures !Occurs(whole, CLOSE, i) {
      if i < |text| {
        assert whole[i] == text[i];
      }
    }
  }

  /**
   Any value can be written as a default, closing braces, blanks and all: escaped, it makes a token body that ends where
   it should and decodes to the value.
   */
  lemma AnyDefaultCanBeWritten(name: string, value: string, plain: byte -> bool, fromUtf8: Bytes -> Option<string>)
    returns (body: string)
    requires IsValidEnvName(name) && PrintsPlainly(plain) && DecodesUtf8(fromUtf8)
    ensures Clear(body, CLOSE)
    ensures ParseEnvToken(body, v => BestEffort(v, fromUtf8)) == Ok((name, Some(value)))
  {
    hide Escaped, Utf8, BestEffort, IsValidEnvName, Clear, Trim, TrimStart, TrimEnd;
    var bytes := Escaped(Utf8(value), plain);
    EscapedIsPrintable(Utf8(value), plain);
    var text := AsciiText(bytes);
    AsciiTextBytes(bytes);
    DecodedDefault(value, plain, fromUtf8, text);
    PrintableIsTrimmed(text);
    NameIsPlain(name);
    body := name + ":" + text;
    FindAfter(name, ":", text);
    assert body[..|name|] == name && body[|name| + 1..] == text;
    assert name != "" by {
      NameNotEmpty(name);
    }
    assert '}' !in body;
    NoBraceIsClear(body);
  }

  lemma NameNotEmpty(name: string)
    requires IsValidEnvName(name)
    ensures name != ""
  {
  }

  lemma PrintableIsTrimmed(text: string)
    requires forall i :: 0 <= i < |text| ==> 33 <= text[i] as int < 127
    ensures Trim(text) == text
  {
    if text != "" {
      AlreadyTrimmed(text);
    }
  }
}
