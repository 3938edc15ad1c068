/**
 * The parser of the telemetry message a dual-channel (Cognex) driver pushes
 * over UDP: control characters are stripped, the text is trimmed and split on
 * tabs, and every `key=value` entry is written into the step result in order.
 */
module Telemetry {
  import opened Wrappers
  import opened Strings
  import opened Values

  /** The characters `/[\u0000\r\n]+/g` removes. */
  predicate IsStrippedControl(c: char) {
    c == '\0' || c == '\r' || c == '\n'
  }

  /** `text.replace(/[\u0000\r\n]+/g, '')` */
  function StripControl(s: string): (r: string)
    ensures forall i :: 0 <= i < |r| ==> !IsStrippedControl(r[i])
  {
    if s == [] then []
    else (if IsStrippedControl(s[0]) then [] else [s[0]]) + StripControl(s[1..])
  }

  /** Stripping works character by character: it distributes over concatenation. */
  lemma {:induction false} StripControlConcat(a: string, b: string)
    ensures StripControl(a + b) == StripControl(a) + StripControl(b)
    decreases |a|
  {
    if a != [] {
      assert (a + b)[1..] == a[1..] + b;
      StripControlConcat(a[1..], b);
    } else {
      assert a + b == b;
    }
  }

  /** NUL, CR and LF are deleted; every other character is kept. */
  lemma StripControlChar(c: char)
    ensures IsStrippedControl(c) ==> StripControl([c]) == []
    ensures !IsStrippedControl(c) ==> StripControl([c]) == [c]
  {
    assert [c][1..] == [];
  }

  /** A text without NUL, CR or LF is left as it is. */
  lemma {:induction false} StripControlKeepsCleanText(s: string)
    requires forall i :: 0 <= i < |s| ==> !IsStrippedControl(s[i])
    ensures StripControl(s) == s
  {
    if s != [] {
      StripControlKeepsCleanText(s[1..]);
    }
  }

  /** The entries of a message: `...replace(...).trim().split('\t')`. */
  function MessageEntries(text: string): seq<string> {
    Split(Trim(StripControl(text)), "\t")
  }

  /** One parsed entry. */
  datatype Entry = Entry(key: string, value: Value)

  /** `parseFloat(value)`, kept only when it is not NaN. */
  function Coerce(raw: string): (v: Value)
    ensures v.Num? <==> NumericPrefix(raw).Some?
    ensures v.Num? ==> NumericPrefix(raw) == Some(v.n)
    ensures !v.Num? ==> v == Str(raw)
  {
    match NumericPrefix(raw)
    case Some(x) => Num(x)
    case None => Str(raw)
  }

  /** `/pass|result/.test(key)` */
  predicate IsVerdictKey(key: string) {
    Contains(key, "pass") || Contains(key, "result")
  }

  /**
   * One `key=value` entry. The key is the trimmed text before the first `=`
   * and the value the trimmed text between the first and the second `=`.
   * `None` when the entry has no `=`: its value is `undefined` and
   * `value.trim()` throws.
   */
  function ParseEntry(text: string): Option<Entry> {
    var parts := Split(text, "=");
    if |parts| < 2 then None
    else
      var key := Trim(parts[0]);
      var value := Coerce(Trim(parts[1]));
      if IsVerdictKey(key) then Some(Entry(ReplaceFirst(key, "pass", "result"), Bool(value == Num(1.0))))
      else Some(Entry(key, value))
  }

  /** An entry parses exactly when it holds an `=`. */
  lemma EntryNeedsEquals(text: string)
    ensures ParseEntry(text).Some? <==> exists j :: OccursAt(text, "=", j)
  {
    var parts := Split(text, "=");
    SplitPiecesHaveNoSeparator(text, "=");
    SplitJoin(text, "=");
    if |parts| == 1 {
      assert Join(parts, "=") == parts[0] == text;
    } else {
      assert text == parts[0] + "=" + Join(parts[1..], "=");
      assert OccursAt(text, "=", |parts[0]|);
    }
  }

  /**
   * A pass-like key is renamed (its first `pass` becomes `result`) and its
   * value is `true` exactly when the value text reads as the number 1;
   * any other key keeps its trimmed name and the coerced value.
   */
  lemma VerdictEntry(key: string, raw: string)
    requires forall k :: 0 <= k < |key| ==> key[k] != '='
    ensures ParseEntry(key + "=" + raw) ==
      var value := Trim(FirstPiece(raw));
      if IsVerdictKey(Trim(key)) then
        Some(Entry(ReplaceFirst(Trim(key), "pass", "result"), Bool(NumericPrefix(value) == Some(1.0))))
      else Some(Entry(Trim(key), Coerce(value)))
  {
    SplitAfterFirstSeparator(key, raw, '=');
    assert key + "=" + raw == key + ['='] + raw;
  }

  /** The text before the first `=`. */
  function FirstPiece(s: string): string {
    Split(s, "=")[0]
  }

  /** Splitting `a + [sep] + b`, where `a` has no `sep`, gives `a` and then the pieces of `b`. */
  lemma {:induction false} SplitAfterFirstSeparator(a: string, b: string, sep: char)
    requires forall k :: 0 <= k < |a| ==> a[k] != sep
    ensures Split(a + [sep] + b, [sep]) == [a] + Split(b, [sep])
    decreases |a|
  {
    var s := a + [sep] + b;
    if a == [] {
      assert s[..1] == [sep];
      assert s[1..] == b;
    } else {
      assert s[..1] == [a[0]];
      assert s[1..] == a[1..] + [sep] + b;
      SplitAfterFirstSeparator(a[1..], b, sep);
      assert a == [a[0]] + a[1..];
    }
  }

  /**
   * The entries that parse before the first one that does not, and whether
   * every entry parsed (`complete` is false when the listener throws at a bad entry).
   */
  datatype Parsed = Parsed(entries: seq<Entry>, complete: bool)

  function ParseAll(items: seq<string>): Parsed {
    if items == [] then Parsed([], true)
    else
      var before := ParseAll(items[..|items| - 1]);
      if !before.complete then before
      else match ParseEntry(items[|items| - 1])
        case None => Parsed(before.entries, false)
        case Some(e) => Parsed(before.entries + [e], true)
  }

  /** `stepResult[key] = value` for each entry, in order. */
  function Write(fields: StepResult, entries: seq<Entry>): StepResult {
    if entries == [] then fields
    else
      var e := entries[|entries| - 1];
      Write(fields, entries[..|entries| - 1])[e.key := e.value]
  }

  /** The step result after the message listener ran, and whether it threw. */
  function Apply(fields: StepResult, text: string): (StepResult, bool) {
    var parsed := ParseAll(MessageEntries(text));
    (Write(fields, parsed.entries), !parsed.complete)
  }

  predicate NoLaterKey(entries: seq<Entry>, i: int, key: string) {
    forall j :: 0 <= i < j < |entries| ==> entries[j].key != key
  }

  /** A key that no entry names keeps what the step result had. */
  lemma {:induction false} UnnamedKeyUnchanged(fields: StepResult, entries: seq<Entry>, key: string)
    requires forall i :: 0 <= i < |entries| ==> entries[i].key != key
    ensures key in Write(fields, entries) <==> key in fields
    ensures key in fields ==> Write(fields, entries)[key] == fields[key]
  {
    if entries != [] {
      UnnamedKeyUnchanged(fields, entries[..|entries| - 1], key);
    }
  }

  /** Entries are written in order, so a key holds the value of the LAST entry naming it. */
  lemma {:induction false} LastEntryWins(fields: StepResult, entries: seq<Entry>, i: nat)
    requires i < |entries| && NoLaterKey(entries, i, entries[i].key)
    ensures entries[i].key in Write(fields, entries)
    ensures Write(fields, entries)[entries[i].key] == entries[i].value
  {
    var last := |entries| - 1;
    if i < last {
      var init := entries[..last];
      assert init[i] == entries[i];
      assert NoLaterKey(init, i, init[i].key);
      LastEntryWins(fields, init, i);
      assert entries[last].key != entries[i].key;
    }
  }

  /** The listener writes every entry in order and stops at the first one without `=`. */
  method WriteEntries(fields: StepResult, items: seq<string>) returns (result: StepResult, threw: bool)
    ensures result == Write(fields, ParseAll(items).entries)
    ensures threw == !ParseAll(items).complete
  {
    result := fields;
    threw := false;
    var i := 0;
    ghost var written: seq<Entry> := [];
    while i < |items| && !threw
      invariant 0 <= i <= |items|
      invariant ParseAll(items[..i]) == Parsed(written, !threw)
      invariant result == Write(fields, written)
      invariant threw ==> ParseAll(items) == ParseAll(items[..i])
    {
      var parsed := ParseEntry(items[i]);
      ParseAllNext(items, i);
      if parsed.None? {
        threw := true;
        ParseAllStopsAtFailure(items, i + 1);
      } else {
        var e := parsed.value;
        result := result[e.key := e.value];
        WriteNext(fields, written, e);
        written := written + [e];
      }
      i := i + 1;
    }
    if !threw {
      assert items[..i] == items;
    }
  }

  lemma ParseAllNext(items: seq<string>, i: nat)
    requires i < |items| && ParseAll(items[..i]).complete
    ensures ParseAll(items[..i + 1]) ==
      match ParseEntry(items[i])
      case None => Parsed(ParseAll(items[..i]).entries, false)
      case Some(e) => Parsed(ParseAll(items[..i]).entries + [e], true)
  {
    assert items[..i + 1][..i] == items[..i];
  }

  lemma WriteNext(fields: StepResult, entries: seq<Entry>, e: Entry)
    ensures Write(fields, entries + [e]) == Write(fields, entries)[e.key := e.value]
  {
    assert (entries + [e])[..|entries|] == entries;
  }

  /** Once an entry fails to parse, later entries change nothing. */
  lemma {:induction false} ParseAllStopsAtFailure(items: seq<string>, k: nat)
    requires k <= |items|
    requires !ParseAll(items[..k]).complete
    ensures ParseAll(items) == ParseAll(items[..k])
    decreases |items| - k
  {
    if k < |items| {
      assert items[..k + 1][..k] == items[..k];
      ParseAllStopsAtFailure(items, k + 1);
    } else {
      assert items[..k] == items;
    }
  }
}
