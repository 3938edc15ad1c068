/**
 * The JavaScript string operations the inspection runner relies on:
 * `trim`, `split` with a string separator, `startsWith`, `includes`,
 * `replace` of the first occurrence of a string, an ASCII case-insensitive
 * suffix test, and the numeric prefix that `parseFloat` reads.
 */
module Strings {
  import opened Wrappers

  /** White space and line terminators that `String.prototype.trim` removes. */
  predicate IsJsSpace(c: char) {
    c == ' ' || c == '\t' || c == '\n' || c == '\U{000B}' || c == '\U{000C}' || c == '\r' ||
    c == '\U{00A0}' || c == '\U{1680}' || ('\U{2000}' <= c <= '\U{200A}') ||
    c == '\U{2028}' || c == '\U{2029}' || c == '\U{202F}' || c == '\U{205F}' ||
    c == '\U{3000}' || c == '\U{FEFF}'
  }

  function TrimStart(s: string): (r: string)
    ensures |r| <= |s|
  {
    if s != [] && IsJsSpace(s[0]) then TrimStart(s[1..]) else s
  }

  function TrimEnd(s: string): (r: string)
    ensures |r| <= |s|
  {
    if s != [] && IsJsSpace(s[|s| - 1]) then TrimEnd(s[..|s| - 1]) else s
  }

  predicate AllSpace(s: string) {
    forall i :: 0 <= i < |s| ==> IsJsSpace(s[i])
  }

  /** `s.trim()` */
  function Trim(s: string): string {
    TrimEnd(TrimStart(s))
  }

  lemma {:induction false} TrimStartSpec(s: string)
    ensures var r := TrimStart(s);
      r == s[|s| - |r|..] && AllSpace(s[..|s| - |r|]) && (r != [] ==> !IsJsSpace(r[0]))
  {
    if s != [] && IsJsSpace(s[0]) {
      TrimStartSpec(s[1..]);
      var r := TrimStart(s);
      assert s[..|s| - |r|] == [s[0]] + s[1..][..|s| - 1 - |r|];
    }
  }

  lemma {:induction false} TrimEndSpec(s: string)
    ensures var r := TrimEnd(s);
      r == s[..|r|] && AllSpace(s[|r|..]) && (r != [] ==> !IsJsSpace(r[|r| - 1]))
  {
    if s != [] && IsJsSpace(s[|s| - 1]) {
      var init := s[..|s| - 1];
      TrimEndSpec(init);
      var r := TrimEnd(s);
      assert s[|r|..] == init[|r|..] + [s[|s| - 1]];
    }
  }

  /**
   * `s.trim()` removes the white space on both ends of `s` and nothing else:
   * the result is an infix of `s`, everything around it is white space, and
   * it neither starts nor ends with white space.
   */
  lemma TrimSpec(s: string)
    ensures var r := Trim(s);
      (r != [] ==> !IsJsSpace(r[0]) && !IsJsSpace(r[|r| - 1])) &&
      exists k :: OccursAt(s, r, k) && AllSpace(s[..k]) && AllSpace(s[k + |r|..])
  {
    var t := TrimStart(s);
    var r := TrimEnd(t);
    TrimStartSpec(s);
    TrimEndSpec(t);
    var k := |s| - |t|;
    assert r == s[k..][..|r|] == s[k..k + |r|];
    assert OccursAt(s, r, k);
    assert s[k + |r|..] == t[|r|..];
  }

  /** True when `pat` occurs in `s` starting at index `i`. */
  predicate OccursAt(s: string, pat: string, i: int) {
    0 <= i && i + |pat| <= |s| && s[i..i + |pat|] == pat
  }

  /** `s.startsWith(pat)` */
  predicate StartsWith(s: string, pat: string) {
    |pat| <= |s| && s[..|pat|] == pat
  }

  /** `s.indexOf(pat)`, `None` for -1. */
  function IndexOf(s: string, pat: string): (r: Option<nat>)
    ensures r.Some? ==> r.value + |pat| <= |s|
    decreases |s|
  {
    if |s| < |pat| then None
    else if s[..|pat|] == pat then Some(0)
    else
      match IndexOf(s[1..], pat)
      case None => None
      case Some(i) => Some(i + 1)
  }

  /** `indexOf` finds the leftmost occurrence, and reports none only when there is none. */
  lemma {:induction false} IndexOfSpec(s: string, pat: string)
    ensures var r := IndexOf(s, pat);
      (r.Some? ==> OccursAt(s, pat, r.value) && forall j :: 0 <= j < r.value ==> !OccursAt(s, pat, j)) &&
      (r.None? ==> forall j :: !OccursAt(s, pat, j))
    decreases |s|
  {
    if |s| >= |pat| && s[..|pat|] != pat {
      IndexOfSpec(s[1..], pat);
      forall j | OccursAt(s, pat, j) && j > 0
        ensures OccursAt(s[1..], pat, j - 1)
      {
        assert s[1..][j - 1..j - 1 + |pat|] == s[j..j + |pat|];
      }
      match IndexOf(s[1..], pat)
      case None =>
      case Some(i) =>
        assert s[1..][i..i + |pat|] == s[i + 1..i + 1 + |pat|];
    }
  }

  /** `s.includes(pat)` */
  predicate Contains(s: string, pat: string) {
    IndexOf(s, pat).Some?
  }

  /**
   * The text `replace` inserts for a match of a string pattern: `$$` stands
   * for `$`, `$&` for the match, `` $` `` for the text before it and `$'` for
   * the text after it. Every other character stands for itself, `$` included;
   * a string pattern has no capture groups, so `$1` and `$<` stay as written.
   */
  function Substitution(rep: string, matched: string, before: string, after: string): string
    decreases |rep|
  {
    if rep == [] then []
    else if rep[0] == '$' && |rep| >= 2 && (rep[1] == '$' || rep[1] == '&' || rep[1] == '`' || rep[1] == '\'') then
      (if rep[1] == '$' then ['$'] else if rep[1] == '&' then matched else if rep[1] == '`' then before else after) +
      Substitution(rep[2..], matched, before, after)
    else [rep[0]] + Substitution(rep[1..], matched, before, after)
  }

  /** A replacement without `$` is inserted as it is. */
  lemma {:induction false} LiteralSubstitution(rep: string, matched: string, before: string, after: string)
    requires forall k :: 0 <= k < |rep| ==> rep[k] != '$'
    ensures Substitution(rep, matched, before, after) == rep
    decreases |rep|
  {
    if rep != [] {
      LiteralSubstitution(rep[1..], matched, before, after);
      assert rep == [rep[0]] + rep[1..];
    }
  }

  /** Each `$` pattern stands for its piece of the text, and the rest of the replacement follows it. */
  lemma {:induction false} SubstitutionPatterns(rest: string, matched: string, before: string, after: string)
    ensures Substitution("$$" + rest, matched, before, after) == "$" + Substitution(rest, matched, before, after)
    ensures Substitution("$&" + rest, matched, before, after) == matched + Substitution(rest, matched, before, after)
    ensures Substitution("$`" + rest, matched, before, after) == before + Substitution(rest, matched, before, after)
    ensures Substitution("$'" + rest, matched, before, after) == after + Substitution(rest, matched, before, after)
  {
    PatternTail('$', rest);
    PatternTail('&', rest);
    PatternTail('`', rest);
    PatternTail('\'', rest);
  }

  /** A `$` followed by a digit is not a pattern for a string pattern: both characters are kept. */
  lemma {:induction false} GroupReferenceIsLiteral(d: char, rest: string, matched: string, before: string, after: string)
    requires IsDigit(d)
    ensures Substitution(['$', d] + rest, matched, before, after) == ['$', d] + Substitution(rest, matched, before, after)
  {
    var r := ['$', d] + rest;
    assert r[1..] == [d] + rest;
    assert r[1..][1..] == rest;
  }

  lemma {:induction false} PatternTail(c: char, rest: string)
    ensures (['$', c] + rest)[0] == '$' && (['$', c] + rest)[1] == c && (['$', c] + rest)[2..] == rest
  {
  }

  /** `s.replace(pat, rep)` with a string pattern: the first occurrence becomes the substitution of `rep`. */
  function ReplaceFirst(s: string, pat: string, rep: string): string {
    match IndexOf(s, pat)
    case None => s
    case Some(i) => s[..i] + Substitution(rep, pat, s[..i], s[i + |pat|..]) + s[i + |pat|..]
  }

  /** Only the leftmost occurrence is replaced, by the substitution of `rep`; without one, the string is unchanged. */
  lemma {:induction false} ReplaceFirstSpec(s: string, pat: string, rep: string)
    ensures (forall j :: !OccursAt(s, pat, j)) ==> ReplaceFirst(s, pat, rep) == s
    ensures forall i :: OccursAt(s, pat, i) && NoEarlierOccurrence(s, pat, i) ==>
              ReplaceFirst(s, pat, rep) == s[..i] + Substitution(rep, pat, s[..i], s[i + |pat|..]) + s[i + |pat|..]
  {
    IndexOfSpec(s, pat);
    match IndexOf(s, pat)
    case None =>
    case Some(k) =>
      forall i | OccursAt(s, pat, i) && NoEarlierOccurrence(s, pat, i)
        ensures ReplaceFirst(s, pat, rep) == s[..i] + Substitution(rep, pat, s[..i], s[i + |pat|..]) + s[i + |pat|..]
      {
        assert !(i < k) && !(k < i);
      }
  }

  /** A replacement without `$` takes the place of the leftmost occurrence as it is. */
  lemma {:induction false} ReplaceFirstLiteral(s: string, pat: string, rep: string, i: int)
    requires forall k :: 0 <= k < |rep| ==> rep[k] != '$'
    requires OccursAt(s, pat, i) && NoEarlierOccurrence(s, pat, i)
    ensures ReplaceFirst(s, pat, rep) == s[..i] + rep + s[i + |pat|..]
  {
    ReplaceFirstSpec(s, pat, rep);
    LiteralSubstitution(rep, pat, s[..i], s[i + |pat|..]);
  }

  predicate NoEarlierOccurrence(s: string, pat: string, i: int) {
    forall j :: 0 <= j < i ==> !OccursAt(s, pat, j)
  }

  /** The pieces of `s.split(sep)` for a non-empty string separator, leftmost occurrences first. */
  function Split(s: string, sep: string): (parts: seq<string>)
    requires |sep| > 0
    ensures |parts| >= 1
    decreases |s|
  {
    if |s| < |sep| then [s]
    else if s[..|sep|] == sep then [""] + Split(s[|sep|..], sep)
    else
      var rest := Split(s[1..], sep);
      [[s[0]] + rest[0]] + rest[1..]
  }

  /** `parts.join(sep)` */
  function Join(parts: seq<string>, sep: string): string {
    if parts == [] then ""
    else if |parts| == 1 then parts[0]
    else parts[0] + sep + Join(parts[1..], sep)
  }

  /** Joining the pieces back with the separator gives the original string. */
  lemma {:induction false} SplitJoin(s: string, sep: string)
    requires |sep| > 0
    ensures Join(Split(s, sep), sep) == s
    ensures StartsWith(s, Split(s, sep)[0])
    decreases |s|
  {
    if |s| < |sep| {
    } else if s[..|sep|] == sep {
      var rest := Split(s[|sep|..], sep);
      SplitJoin(s[|sep|..], sep);
      assert Split(s, sep) == [""] + rest;
      assert ([""] + rest)[1..] == rest;
      assert Join([""] + rest, sep) == "" + sep + Join(rest, sep);
      assert s == sep + s[|sep|..];
    } else {
      var rest := Split(s[1..], sep);
      SplitJoin(s[1..], sep);
      assert Split(s, sep) == [[s[0]] + rest[0]] + rest[1..];
      JoinExtendsFirst(s[0], rest, sep);
      assert s == [s[0]] + s[1..];
      assert s[..1 + |rest[0]|] == [s[0]] + s[1..][..|rest[0]|];
    }
  }

  /** Putting a character in front of the first piece puts it in front of the joined string. */
  lemma JoinExtendsFirst(c: char, parts: seq<string>, sep: string)
    requires |parts| >= 1
    ensures Join([[c] + parts[0]] + parts[1..], sep) == [c] + Join(parts, sep)
  {
    var ext := [[c] + parts[0]] + parts[1..];
    if |parts| > 1 {
      assert ext[1..] == parts[1..];
    }
  }

  /** `sep` occurs nowhere in `s`. */
  ghost predicate Lacks(s: string, sep: string) {
    forall j :: !OccursAt(s, sep, j)
  }

  /** No piece that `Split` returns contains the separator. */
  lemma {:induction false} SplitPiecesHaveNoSeparator(s: string, sep: string)
    requires |sep| > 0
    ensures forall i :: 0 <= i < |Split(s, sep)| ==> Lacks(Split(s, sep)[i], sep)
    decreases |s|
  {
    var parts := Split(s, sep);
    if |s| < |sep| {
      forall j ensures !OccursAt(s, sep, j) {}
    } else if s[..|sep|] == sep {
      SplitPiecesHaveNoSeparator(s[|sep|..], sep);
      forall j ensures !OccursAt("", sep, j) {}
    } else {
      var rest := Split(s[1..], sep);
      SplitPiecesHaveNoSeparator(s[1..], sep);
      SplitJoin(s[1..], sep);
      var head := [s[0]] + rest[0];
      assert parts == [head] + rest[1..];
      if |sep| <= |head| {
        assert head[..|sep|] == s[..|sep|];
      }
      ConsLacks(s[0], rest[0], sep);
    }
  }

  /** Prepending a character creates no occurrence except possibly at the front. */
  lemma ConsLacks(c: char, t: string, sep: string)
    requires Lacks(t, sep) && !OccursAt([c] + t, sep, 0)
    ensures Lacks([c] + t, sep)
  {
    var h := [c] + t;
    forall j | 0 < j && j + |sep| <= |h|
      ensures !OccursAt(h, sep, j)
    {
      assert h[j..j + |sep|] == t[j - 1..j - 1 + |sep|];
      assert !OccursAt(t, sep, j - 1);
    }
  }

  /** ASCII lower case, the only case folding a JavaScript `/i` regular expression applies to these letters. */
  function LowerAscii(c: char): char {
    if 'A' <= c <= 'Z' then (c as int + 32) as char else c
  }

  function LowerAsciiString(s: string): (r: string)
    ensures |r| == |s|
    ensures forall i :: 0 <= i < |s| ==> r[i] == LowerAscii(s[i])
  {
    if s == [] then [] else [LowerAscii(s[0])] + LowerAsciiString(s[1..])
  }

  /** `/\.(bmp|jpg)$/i.test(s)` */
  predicate HasImageExtension(s: string) {
    |s| >= 4 && LowerAsciiString(s[|s| - 4..]) in {".bmp", ".jpg"}
  }

  /** `s.replace(/\.(bmp|jpg)$/i, '.svg')`: the companion overlay of an image keeps its base name. */
  function OverlayPath(s: string): (r: string)
    ensures HasImageExtension(s) ==> |r| == |s| && r[..|s| - 4] == s[..|s| - 4] && r[|s| - 4..] == ".svg"
    ensures !HasImageExtension(s) ==> r == s
  {
    if HasImageExtension(s) then s[..|s| - 4] + ".svg" else s
  }

  // ---------------------------------------------------------------------------
  // Decimal numbers: the prefix of a string that `parseFloat` reads, without
  // exponents or `Infinity`.

  predicate IsDigit(c: char) { '0' <= c <= '9' }

  function DigitValue(c: char): nat
    requires IsDigit(c)
  {
    c as int - '0' as int
  }

  /** The number of leading decimal digits of `s`. */
  function DigitRun(s: string): (n: nat)
    ensures n <= |s|
    ensures forall i :: 0 <= i < n ==> IsDigit(s[i])
  {
    if s != [] && IsDigit(s[0]) then 1 + DigitRun(s[1..]) else 0
  }

  /** The value of a string of decimal digits, most significant first. */
  function DigitsValue(s: string): nat
    requires forall i :: 0 <= i < |s| ==> IsDigit(s[i])
  {
    if s == [] then 0 else 10 * DigitsValue(s[..|s| - 1]) + DigitValue(s[|s| - 1])
  }

  function Pow10(n: nat): (r: nat)
    ensures r >= 1
  {
    if n == 0 then 1 else 10 * Pow10(n - 1)
  }

  /** The number `whole.fraction`. */
  function Decimal(whole: nat, fraction: string): real
    requires forall i :: 0 <= i < |fraction| ==> IsDigit(fraction[i])
  {
    whole as real + DigitsValue(fraction) as real / Pow10(|fraction|) as real
  }

  /** The unsigned decimal `digits[.digits]` at the start of `s`, if it has at least one digit. */
  function UnsignedPrefix(s: string): Option<real> {
    var n := DigitRun(s);
    var whole := s[..n];
    if n < |s| && s[n] == '.' then
      var rest := s[n + 1..];
      var m := DigitRun(rest);
      if n + m == 0 then None
      else Some(Decimal(DigitsValue(whole), rest[..m]))
    else if n == 0 then None
    else Some(DigitsValue(whole) as real)
  }

  /** `parseFloat(s)` for a string without leading white space; `None` stands for NaN. */
  function NumericPrefix(s: string): Option<real> {
    if s != [] && (s[0] == '-' || s[0] == '+') then
      match UnsignedPrefix(s[1..])
      case None => None
      case Some(x) => Some(if s[0] == '-' then -x else x)
    else UnsignedPrefix(s)
  }

  /** The decimal text of a natural number. */
  function NatText(n: nat): (r: string)
    ensures |r| >= 1
    ensures forall i :: 0 <= i < |r| ==> IsDigit(r[i])
  {
    var d := ['0' + (n % 10) as char];
    if n < 10 then d else NatText(n / 10) + d
  }

  lemma {:induction false} NatTextValue(n: nat)
    ensures DigitsValue(NatText(n)) == n
  {
    var r := NatText(n);
    assert r[..|r| - 1] == if n < 10 then [] else NatText(n / 10);
    if n >= 10 {
      NatTextValue(n / 10);
    }
  }

  /** `parseFloat` reads back every decimal number text in full. */
  lemma ParsesNaturalText(n: nat)
    ensures NumericPrefix(NatText(n)) == Some(n as real)
  {
    var r := NatText(n);
    assert DigitRun(r) == |r| by { DigitRunOfDigits(r); }
    assert r[..|r|] == r;
    NatTextValue(n);
  }

  /**
   * `parseFloat` reads a signed decimal `sign` `whole` `.` `fraction` and
   * stops at the first character that is not a digit, whatever follows it.
   */
  lemma {:induction false} ParsesDecimalText(sign: string, whole: nat, fraction: string, rest: string)
    requires sign == "" || sign == "-" || sign == "+"
    requires forall i :: 0 <= i < |fraction| ==> IsDigit(fraction[i])
    requires rest == [] || !IsDigit(rest[0])
    ensures NumericPrefix(sign + (NatText(whole) + ("." + (fraction + rest)))) ==
      Some(if sign == "-" then -Decimal(whole, fraction) else Decimal(whole, fraction))
  {
    UnsignedDecimal(whole, fraction, rest);
    SignedPrefix(sign, NatText(whole) + ("." + (fraction + rest)));
  }

  lemma {:induction false} UnsignedDecimal(whole: nat, fraction: string, rest: string)
    requires forall i :: 0 <= i < |fraction| ==> IsDigit(fraction[i])
    requires rest == [] || !IsDigit(rest[0])
    ensures UnsignedPrefix(NatText(whole) + ("." + (fraction + rest))) == Some(Decimal(whole, fraction))
  {
    var w := NatText(whole);
    var tail := "." + (fraction + rest);
    var u := w + tail;
    DigitRunStops(w, tail);
    assert u[..|w|] == w;
    NatTextValue(whole);
    assert u[|w|] == '.';
    assert u[|w| + 1..] == tail[1..] == fraction + rest;
    DigitRunStops(fraction, rest);
    assert (fraction + rest)[..|fraction|] == fraction;
  }

  /** A sign in front of a number that reads negates it (`-`) or keeps it (`+`). */
  lemma {:induction false} SignedPrefix(sign: string, u: string)
    requires sign == "" || sign == "-" || sign == "+"
    requires u != [] && IsDigit(u[0]) && UnsignedPrefix(u).Some?
    ensures NumericPrefix(sign + u) == Some(if sign == "-" then -UnsignedPrefix(u).value else UnsignedPrefix(u).value)
  {
    if sign != "" {
      assert (sign + u)[1..] == u;
    } else {
      assert sign + u == u;
    }
  }

  /** A number without a fraction is read up to the first character that cannot continue it. */
  lemma {:induction false} ParsesIntegerText(sign: string, whole: nat, rest: string)
    requires sign == "" || sign == "-" || sign == "+"
    requires rest == [] || (!IsDigit(rest[0]) && rest[0] != '.')
    ensures NumericPrefix(sign + (NatText(whole) + rest)) == Some(if sign == "-" then -(whole as real) else whole as real)
  {
    var w := NatText(whole);
    var u := w + rest;
    NatTextValue(whole);
    DigitRunStops(w, rest);
    assert u[..|w|] == w;
    assert UnsignedPrefix(u) == Some(whole as real);
    SignedPrefix(sign, u);
  }

  /** `parseFloat("-3")` is -3. */
  lemma {:induction false} NegativeIntegerExample()
    ensures NumericPrefix("-3") == Some(-3.0)
  {
    assert NatText(3) == "3";
    ParsesIntegerText("-", 3, "");
    assert "-" + ("3" + "") == "-3";
  }

  /** `parseFloat("2.5")` is 2.5. */
  lemma {:induction false} DecimalExample()
    ensures NumericPrefix("2.5") == Some(2.5)
  {
    assert NatText(2) == "2";
    ParsesDecimalText("", 2, "5", "");
    assert "" + ("2" + ("." + ("5" + ""))) == "2.5";
    assert DigitsValue("5") == 5;
  }

  /** `parseFloat("1abc")` is 1: the letters end the number. */
  lemma {:induction false} TrailingTextExample()
    ensures NumericPrefix("1abc") == Some(1.0)
  {
    assert NatText(1) == "1";
    ParsesIntegerText("", 1, "abc");
    assert "" + ("1" + "abc") == "1abc";
  }

  /** The digit run of `d + rest` is `d` when `rest` does not start with a digit. */
  lemma {:induction false} DigitRunStops(d: string, rest: string)
    requires forall i :: 0 <= i < |d| ==> IsDigit(d[i])
    requires rest == [] || !IsDigit(rest[0])
    ensures DigitRun(d + rest) == |d|
    decreases |d|
  {
    if d != [] {
      assert (d + rest)[1..] == d[1..] + rest;
      DigitRunStops(d[1..], rest);
    } else {
      assert d + rest == rest;
    }
  }

  lemma {:induction false} DigitRunOfDigits(s: string)
    requires forall i :: 0 <= i < |s| ==> IsDigit(s[i])
    ensures DigitRun(s) == |s|
  {
    if s != [] {
      DigitRunOfDigits(s[1..]);
    }
  }
}
