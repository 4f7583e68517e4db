/** Parsers for one comma-separated token: Python's `int()`, `parse_bool` and `parse_vectors` (api/utils.py:122-132). */
module Tokens {
  import opened Outcome
  import opened Text

  // ---------------------------------------------------------------------------
  // int(token)
  // ---------------------------------------------------------------------------

  predicate IsDigit(c: char) { '0' <= c <= '9' }

  /** The ASCII characters Python's `str.isspace` accepts: tab to carriage return, the four separators, space. */
  predicate IsSpace(c: char) { '\t' <= c <= '\r' || '\U{1C}' <= c <= ' ' }

  function TrimStart(s: string): string
    decreases |s|
  {
    if s != [] && IsSpace(s[0]) then TrimStart(s[1..]) else s
  }

  function TrimEnd(s: string): string
    decreases |s|
  {
    if s != [] && IsSpace(s[|s| - 1]) then TrimEnd(s[..|s| - 1]) else s
  }

  /** The grammar of `int()`'s digits: `digit ("_"? digit)*`. */
  predicate DigitRun(s: string)
    decreases |s|
  {
    |s| >= 1 && IsDigit(s[0]) &&
    (|s| == 1 || DigitRun(s[1..]) || (s[1] == '_' && DigitRun(s[2..])))
  }

  function DigitValue(c: char): nat
  {
    if IsDigit(c) then c as int - '0' as int else 0
  }

  /** The decimal value of a digit run, underscores skipped. */
  function DigitsValue(s: string): nat
    decreases |s|
  {
    if s == [] then 0
    else if s[|s| - 1] == '_' then DigitsValue(s[..|s| - 1])
    else 10 * DigitsValue(s[..|s| - 1]) + DigitValue(s[|s| - 1])
  }

  /** Python's `int(token)` in base 10: surrounding white space, an optional sign, then a digit run. */
  function ParseInt(token: string): (r: Option<int>)
    ensures var t := TrimEnd(TrimStart(token));
            r.Some? <==> DigitRun(t) || (|t| >= 1 && (t[0] == '+' || t[0] == '-') && DigitRun(t[1..]))
    ensures var t := TrimEnd(TrimStart(token));
            r.Some? && r.value < 0 ==> |t| >= 1 && t[0] == '-'
  {
    var t := TrimEnd(TrimStart(token));
    if |t| >= 1 && (t[0] == '+' || t[0] == '-') then
      if DigitRun(t[1..]) then
        var magnitude: int := DigitsValue(t[1..]);
        Some(if t[0] == '-' then -magnitude else magnitude)
      else None
    else if DigitRun(t) then Some(DigitsValue(t))
    else None
  }

  // ---------------------------------------------------------------------------
  // str(n), the partner of int()
  // ---------------------------------------------------------------------------

  function DigitChar(d: nat): char
    requires d < 10
  {
    ('0' as int + d) as char
  }

  /** The decimal digits of `n`, most significant first. */
  function NatToString(n: nat): (s: string)
    ensures |s| >= 1
    ensures forall i :: 0 <= i < |s| ==> IsDigit(s[i])
  {
    if n < 10 then [DigitChar(n)] else NatToString(n / 10) + [DigitChar(n % 10)]
  }

  /** Python's `str(n)`. */
  function IntToString(n: int): string
  {
    if n < 0 then "-" + NatToString(-n) else NatToString(n)
  }

  lemma {:induction false} AllDigitsIsDigitRun(s: string)
    requires |s| >= 1
    requires forall i :: 0 <= i < |s| ==> IsDigit(s[i])
    ensures DigitRun(s)
    decreases |s|
  {
    if |s| > 1 {
      AllDigitsIsDigitRun(s[1..]);
    }
  }

  lemma {:induction false} NatToStringValue(n: nat)
    ensures DigitsValue(NatToString(n)) == n
  {
    var s := NatToString(n);
    if n >= 10 {
      NatToStringValue(n / 10);
      assert s[..|s| - 1] == NatToString(n / 10);
    }
  }

  /** `int(str(n)) == n`: the decimal rendering of every integer parses back to it. */
  lemma IntToStringRoundTrip(n: int)
    ensures ParseInt(IntToString(n)) == Some(n)
  {
    var digits := NatToString(if n < 0 then -n else n);
    AllDigitsIsDigitRun(digits);
    NatToStringValue(if n < 0 then -n else n);
    var s := IntToString(n);
    assert !IsSpace(s[0]) && !IsSpace(s[|s| - 1]);
    assert TrimEnd(TrimStart(s)) == s;
    if n < 0 {
      assert s[1..] == digits;
    }
  }

  /** Every character of `s` is white space. */
  predicate AllSpace(s: string)
  {
    forall i :: 0 <= i < |s| ==> IsSpace(s[i])
  }

  /** Any white space around a token, on either side, does not change what it parses to. */
  lemma ParseIntIgnoresSpace(before: string, token: string, after: string)
    requires AllSpace(before) && AllSpace(after)
    ensures ParseInt(before + token + after) == ParseInt(token)
  {
    assert before + token + after == before + (token + after);
    TrimStartSpaces(before, token + after);
    TrimStartThenEnd(token, after);
  }

  lemma {:induction false} TrimStartSpaces(spaces: string, s: string)
    requires AllSpace(spaces)
    ensures TrimStart(spaces + s) == TrimStart(s)
    decreases |spaces|
  {
    if spaces == [] {
      assert spaces + s == s;
    } else {
      assert (spaces + s)[1..] == spaces[1..] + s;
      TrimStartSpaces(spaces[1..], s);
    }
  }

  lemma {:induction false} TrimEndSpaces(s: string, spaces: string)
    requires AllSpace(spaces)
    ensures TrimEnd(s + spaces) == TrimEnd(s)
    decreases |spaces|
  {
    if spaces == [] {
      assert s + spaces == s;
    } else {
      var shorter := spaces[..|spaces| - 1];
      assert (s + spaces)[..|s + spaces| - 1] == s + shorter;
      TrimEndSpaces(s, shorter);
    }
  }

  lemma {:induction false} TrimStartThenEnd(token: string, spaces: string)
    requires AllSpace(spaces)
    ensures TrimEnd(TrimStart(token + spaces)) == TrimEnd(TrimStart(token))
    decreases |token|
  {
    if token == [] {
      assert token + spaces == spaces + [];
      TrimStartSpaces(spaces, []);
    } else if IsSpace(token[0]) {
      assert (token + spaces)[1..] == token[1..] + spaces;
      TrimStartThenEnd(token[1..], spaces);
    } else {
      assert TrimStart(token + spaces) == token + spaces;
      TrimEndSpaces(token, spaces);
    }
  }

  /** The empty token is not an integer: `int("")` raises. */
  lemma EmptyTokenIsNotAnInteger()
    ensures ParseInt("") == None
  {
  }

  // ---------------------------------------------------------------------------
  // parse_vectors
  // ---------------------------------------------------------------------------

  /** `[int(x) for x in tokens]`: stops with a ValueError at the first token that is not an integer. */
  function ParseInts(tokens: seq<string>): (r: Result<seq<int>>)
    ensures r.Ok? <==> forall k :: 0 <= k < |tokens| ==> ParseInt(tokens[k]).Some?
    ensures r.Err? ==> r.error == NotAnInteger
    ensures r.Ok? ==> |r.value| == |tokens| && forall k :: 0 <= k < |tokens| ==> ParseInt(tokens[k]) == Some(r.value[k])
    decreases |tokens|
  {
    if tokens == [] then Ok([])
    else
      match ParseInt(tokens[0])
      case None => Err(NotAnInteger)
      case Some(v) =>
        match ParseInts(tokens[1..])
        case Err(e) => Err(e)
        case Ok(rest) =>
          assert forall k :: 1 <= k < |tokens| ==> tokens[k] == tokens[1..][k - 1];
          Ok([v] + rest)
  }

  /** `parse_vectors` (api/utils.py:122-123): the integers of a comma-separated list. */
  function ParseVectors(list: string): (r: Result<seq<int>>)
    ensures r.Ok? ==> forall k :: 0 <= k < |Split(list, ',')| ==> ParseInt(Split(list, ',')[k]).Some?
    ensures r.Err? ==> exists k :: 0 <= k < |Split(list, ',')| && ParseInt(Split(list, ',')[k]).None?
    ensures r.Ok? ==> |r.value| == |Split(list, ',')| &&
                      forall k :: 0 <= k < |r.value| ==> ParseInt(Split(list, ',')[k]) == Some(r.value[k])
    ensures r.Err? ==> r.error == NotAnInteger
  {
    var tokens := Split(list, ',');
    var parsed := ParseInts(tokens);
    assert parsed.Err? ==> exists k :: 0 <= k < |tokens| && ParseInt(tokens[k]).None?;
    parsed
  }

  /** The comma-joined decimal renderings of `xs`, as a client would write the list. */
  function RenderVectors(xs: seq<int>): string
  {
    Join(seq(|xs|, k requires 0 <= k < |xs| => IntToString(xs[k])), ',')
  }

  /** `parse_vectors` reads back every non-empty list of integers written out with commas. */
  lemma ParseVectorsRoundTrip(xs: seq<int>)
    requires |xs| >= 1
    ensures ParseVectors(RenderVectors(xs)) == Ok(xs)
  {
    var parts := seq(|xs|, k requires 0 <= k < |xs| => IntToString(xs[k]));
    forall k | 0 <= k < |parts| ensures ',' !in parts[k] && ParseInt(parts[k]) == Some(xs[k]) {
      IntToStringRoundTrip(xs[k]);
      NotCommaInIntToString(xs[k]);
    }
    SplitJoin(parts, ',');
    assert RenderVectors(xs) == Join(parts, ',');
    var r := ParseInts(parts);
    assert r.Ok? && |r.value| == |xs|;
    assert forall k :: 0 <= k < |xs| ==> r.value[k] == xs[k];
    assert r.value == xs;
  }

  lemma NotCommaInIntToString(n: int)
    ensures ',' !in IntToString(n)
  {
    var s := IntToString(n);
    forall i | 0 <= i < |s| ensures s[i] != ',' {
      if n < 0 && i > 0 {
        assert s[i] == NatToString(-n)[i - 1];
      }
    }
  }

  /** An empty list is a single empty token, which `int()` rejects. */
  lemma ParseVectorsEmpty()
    ensures ParseVectors("") == Err(NotAnInteger)
  {
    assert Split("", ',') == [""];
  }

  // ---------------------------------------------------------------------------
  // parse_bool
  // ---------------------------------------------------------------------------

  /** `str.lower()` on ASCII letters. */
  function LowerChar(c: char): char
  {
    if 'A' <= c <= 'Z' then (c as int + 32) as char else c
  }

  function Lower(s: string): (r: string)
    ensures |r| == |s|
    ensures forall i :: 0 <= i < |r| ==> !('A' <= r[i] <= 'Z')
    ensures forall i :: 0 <= i < |s| && !('A' <= s[i] <= 'Z') ==> r[i] == s[i]
    ensures forall i :: 0 <= i < |s| && 'A' <= s[i] <= 'Z' ==> r[i] as int == s[i] as int + 32
  {
    seq(|s|, i requires 0 <= i < |s| => LowerChar(s[i]))
  }

  const TrueWords: set<string> := {"yes", "true", "t", "y", "1"}
  const FalseWords: set<string> := {"no", "false", "f", "n", "0"}

  /** `parse_bool` (api/utils.py:126-132): classifies a token case-insensitively, or raises ValueError. */
  function ParseBool(token: string): (r: Result<bool>)
    ensures r == Ok(true) <==> Lower(token) in TrueWords
    ensures r == Ok(false) <==> Lower(token) in FalseWords
    ensures r.Err? <==> Lower(token) !in TrueWords + FalseWords
    ensures r.Err? ==> r.error == NotABoolean
  {
    var word := Lower(token);
    if word in TrueWords then Ok(true)
    else if word in FalseWords then Ok(false)
    else Err(NotABoolean)
  }

  /** No word is both true and false, so the order of the two tests does not matter. */
  lemma WordListsDisjoint()
    ensures TrueWords * FalseWords == {}
  {
  }

  /** `str(True)` and `str(False)`, the spellings the docstring uses, parse to their own value. */
  lemma ParseBoolPythonSpellings()
    ensures ParseBool("True") == Ok(true)
    ensures ParseBool("False") == Ok(false)
    ensures ParseBool("YES") == Ok(true)
    ensures ParseBool("2") == Err(NotABoolean)
  {
    assert Lower("True") == "true";
    assert Lower("False") == "false";
    assert Lower("YES") == "yes";
    assert Lower("2") == "2";
  }
}
