/**
 Deployment environment files (scripts/deploy/validate_smtp_route.py:56-86): parsing, writing and merging.
 */
module EnvFile {
  import opened Outcomes
  import opened Sorting

  // ---------------------------------------------------------------------------
  // Characters
  // ---------------------------------------------------------------------------

  /** The characters at which `str.splitlines` breaks. */
  predicate IsBreak(c: char) {
    c as int in {10, 11, 12, 13, 28, 29, 30, 0x85, 0x2028, 0x2029}
  }

  /** The characters that `str.strip` removes. */
  predicate IsSpace(c: char) {
    || IsBreak(c) || c as int in {9, 31, 32, 0xA0, 0x1680, 0x202F, 0x205F, 0x3000}
    || 0x2000 <= c as int <= 0x200A
  }

  predicate IsWordStart(c: char) { 'A' <= c <= 'Z' || 'a' <= c <= 'z' || c == '_' }
  predicate IsWord(c: char) { IsWordStart(c) || '0' <= c <= '9' }

  predicate IsIdentifier(s: string) {
    s != "" && IsWordStart(s[0]) && forall c :: c in s ==> IsWord(c)
  }

  function SpaceChars(): char -> bool { (c: char) => IsSpace(c) }
  function Only(quote: char): char -> bool { (c: char) => c == quote }

  // ---------------------------------------------------------------------------
  // Stripping
  // ---------------------------------------------------------------------------

  function LeftStripped(s: string, drop: char -> bool): (r: string)
    ensures |r| <= |s| && (r != "" ==> !drop(r[0]))
    ensures r == s <==> (s == "" || !drop(s[0]))
  {
    if s != "" && drop(s[0]) then LeftStripped(s[1..], drop) else s
  }

  function RightStripped(s: string, drop: char -> bool): (r: string)
    ensures |r| <= |s| && r == s[..|r|] && (r != "" ==> !drop(r[|r| - 1]))
    ensures r == s <==> (s == "" || !drop(s[|s| - 1]))
  {
    if s != "" && drop(s[|s| - 1]) then RightStripped(s[..|s| - 1], drop) else s
  }

  function Stripped(s: string, drop: char -> bool): (r: string)
    ensures |r| <= |s|
    ensures r == s <==> (s == "" || (!drop(s[0]) && !drop(s[|s| - 1])))
  {
    RightStripped(LeftStripped(s, drop), drop)
  }

  function Strip(s: string): string { Stripped(s, SpaceChars()) }

  /** `value.strip().strip("'").strip('"')`. */
  function Unquoted(s: string): string {
    Stripped(Stripped(Strip(s), Only('\'')), Only('"'))
  }

  ghost predicate AllDropped(s: string, drop: char -> bool) { forall i :: 0 <= i < |s| ==> drop(s[i]) }

  lemma {:induction false} LeftExactly(s: string, drop: char -> bool) returns (i: nat)
    ensures i <= |s| && AllDropped(s[..i], drop) && LeftStripped(s, drop) == s[i..]
  {
    if s != "" && drop(s[0]) {
      i := LeftExactly(s[1..], drop);
      assert s[..i + 1] == [s[0]] + s[1..][..i] && s[1..][i..] == s[i + 1..];
      i := i + 1;
    } else {
      i := 0;
      assert s[0..] == s;
    }
  }

  lemma {:induction false} RightExactly(s: string, drop: char -> bool) returns (j: nat)
    ensures j <= |s| && AllDropped(s[j..], drop) && RightStripped(s, drop) == s[..j]
  {
    if s != "" && drop(s[|s| - 1]) {
      j := RightExactly(s[..|s| - 1], drop);
      assert s[j..] == s[..|s| - 1][j..] + [s[|s| - 1]] && s[..|s| - 1][..j] == s[..j];
    } else {
      j := |s|;
      assert s[..|s|] == s;
    }
  }

  /** Stripping leaves what is between the characters that it drops on both sides. */
  lemma StrippedExactly(s: string, drop: char -> bool) returns (i: nat, j: nat)
    ensures i <= j <= |s| && Stripped(s, drop) == s[i..j] && AllDropped(s[..i], drop) && AllDropped(s[j..], drop)
    ensures i < j ==> !drop(s[i]) && !drop(s[j - 1])
  {
    i := LeftExactly(s, drop);
    var k := RightExactly(s[i..], drop);
    j := i + k;
    assert s[i..][..k] == s[i..j] && s[i..][k..] == s[j..];
    if k > 0 {
      assert s[i..][0] == s[i] && s[i..][k - 1] == s[j - 1] && s[i..][..k][0] == s[i];
    }
  }

  predicate CleanEdge(c: char) { !IsSpace(c) && c != '\'' && c != '"' }

  /** No edge character of the value is white space or a quote. */
  predicate CleanEdges(s: string) {
    s == "" || (CleanEdge(s[0]) && CleanEdge(s[|s| - 1]))
  }

  lemma UnquotedExactly(s: string)
    ensures Unquoted(s) == s <==> CleanEdges(s)
  {
    var a := Strip(s);
    var b := Stripped(a, Only('\''));
    var c := Stripped(b, Only('"'));
    assert |c| <= |b| <= |a| <= |s|;
    if c == s {
      assert |b| == |a| == |s|;
      SameLengthSame(s, SpaceChars());
      SameLengthSame(a, Only('\''));
      SameLengthSame(b, Only('"'));
    }
  }

  lemma SameLengthSame(s: string, drop: char -> bool)
    ensures |Stripped(s, drop)| == |s| ==> Stripped(s, drop) == s
  {
    LeftShorter(s, drop);
    RightShorter(LeftStripped(s, drop), drop);
  }

  lemma LeftShorter(s: string, drop: char -> bool)
    ensures |LeftStripped(s, drop)| == |s| ==> LeftStripped(s, drop) == s
  {
  }

  lemma RightShorter(s: string, drop: char -> bool)
    ensures |RightStripped(s, drop)| == |s| ==> RightStripped(s, drop) == s
  {
  }

  // ---------------------------------------------------------------------------
  // Lines
  // ---------------------------------------------------------------------------

  function FirstBreak(text: string): (i: nat)
    ensures i <= |text| && (forall k :: 0 <= k < i ==> !IsBreak(text[k])) && (i < |text| ==> IsBreak(text[i]))
  {
    if text == "" || IsBreak(text[0]) then 0 else 1 + FirstBreak(text[1..])
  }

  /** `str.splitlines`: a carriage return and a line feed are one break, and a final break adds no line. */
  function SplitLines(text: string): seq<string>
    decreases |text|
  {
    if text == "" then []
    else
      var i := FirstBreak(text);
      if i == |text| then [text]
      else if text[i] == '\r' && i + 1 < |text| && text[i + 1] == '\n' then [text[..i]] + SplitLines(text[i + 2..])
      else [text[..i]] + SplitLines(text[i + 1..])
  }

  predicate OneLine(s: string) { forall c :: c in s ==> !IsBreak(c) }

  lemma SplitAfterLine(line: string, rest: string)
    requires OneLine(line)
    ensures SplitLines(line + "\n" + rest) == [line] + SplitLines(rest)
  {
    var text := line + "\n" + rest;
    assert text[|line|] == '\n' && IsBreak('\n');
    assert forall k :: 0 <= k < |line| ==> text[k] == line[k] && line[k] in line;
    assert FirstBreak(text) == |line|;
    assert text[..|line|] == line && text[|line| + 1..] == rest;
  }

  /** What the lines of a text are: without a break it is one line, unless it is empty; otherwise the first line ends at
      the first break, which a carriage return and a line feed make together. */
  lemma SplitExactly(line: string, ending: string, rest: string)
    requires OneLine(line) && |ending| > 0 && IsBreak(ending[0])
    requires ending == "\r\n" || (|ending| == 1 && !(ending == "\r" && rest != "" && rest[0] == '\n'))
    ensures SplitLines(line + ending + rest) == [line] + SplitLines(rest)
    ensures SplitLines(line) == if line == "" then [] else [line]
  {
    var text := line + ending + rest;
    assert text[|line|] == ending[0];
    assert forall k :: 0 <= k < |line| ==> text[k] == line[k] && line[k] in line;
    assert FirstBreak(text) == |line|;
    assert text[..|line|] == line && text[|line| + |ending|..] == rest;
    if |ending| == 2 {
      assert text[|line| + 1] == ending[1];
    } else if rest != "" {
      assert text[|line| + 1] == rest[0];
    }
    assert FirstBreak(line) == |line|;
  }

  lemma {:induction false} LinesAreSingle(text: string)
    ensures forall l :: l in SplitLines(text) ==> OneLine(l)
    decreases |text|
  {
    if text != "" {
      var i := FirstBreak(text);
      if i < |text| {
        if text[i] == '\r' && i + 1 < |text| && text[i + 1] == '\n' {
          LinesAreSingle(text[i + 2..]);
        } else {
          LinesAreSingle(text[i + 1..]);
        }
      }
    }
  }

  // ---------------------------------------------------------------------------
  // Parsing
  // ---------------------------------------------------------------------------

  function IndexOf(s: string, c: char): (i: nat)
    requires c in s
    ensures i < |s| && s[i] == c && c !in s[..i]
  {
    if s[0] == c then 0 else 1 + IndexOf(s[1..], c)
  }

  /** What one line defines, if anything. */
  function ParseLine(raw: string): Option<(string, string)> { ParseStripped(Strip(raw)) }

  function ParseStripped(line: string): Option<(string, string)> {
    if line == "" || line[0] == '#' || '=' !in line then None
    else
      var i := IndexOf(line, '=');
      var key := Strip(line[..i]);
      if IsIdentifier(key) then Some((key, Unquoted(line[i + 1..]))) else None
  }

  function LineParser(): string -> Option<(string, string)> { (raw: string) => ParseLine(raw) }

  function Define(values: map<string, string>, definition: Option<(string, string)>): map<string, string> {
    if definition.Some? then values[definition.value.0 := definition.value.1] else values
  }

  /** The values that the lines define, later ones winning. */
  function Defined(lines: seq<string>, parse: string -> Option<(string, string)>): map<string, string> {
    if lines == [] then map[] else Define(Defined(lines[..|lines| - 1], parse), parse(lines[|lines| - 1]))
  }

  function Parsed(text: string): map<string, string> { Defined(SplitLines(text), LineParser()) }

  /** The line at i defines the key, and no later line does. */
  ghost predicate DefinesLast(lines: seq<string>, parse: string -> Option<(string, string)>, i: nat, k: string)
    requires i < |lines|
  {
    && parse(lines[i]).Some? && parse(lines[i]).value.0 == k
    && forall j :: i < j < |lines| && parse(lines[j]).Some? ==> parse(lines[j]).value.0 != k
  }

  /** A key has the value of the last line that defines it, and only keys with such a line are there. */
  lemma {:induction false} LastDefinitionWins(lines: seq<string>, parse: string -> Option<(string, string)>, k: string)
    ensures k in Defined(lines, parse) <==> exists i :: 0 <= i < |lines| && DefinesLast(lines, parse, i, k)
    ensures forall i :: 0 <= i < |lines| && DefinesLast(lines, parse, i, k) ==>
      k in Defined(lines, parse) && Defined(lines, parse)[k] == parse(lines[i]).value.1
  {
    if lines != [] {
      var n := |lines| - 1;
      var front, last := lines[..n], parse(lines[n]);
      LastDefinitionWins(front, parse, k);
      if last.Some? && last.value.0 == k {
        assert DefinesLast(lines, parse, n, k);
      } else {
        forall i | 0 <= i < n ensures DefinesLast(lines, parse, i, k) <==> DefinesLast(front, parse, i, k) { }
      }
    }
  }

  method ReadLine(raw: string) returns (definition: Option<(string, string)>)
    ensures definition == ParseLine(raw)
  {
    var line := Strip(raw);
    if line == "" || line[0] == '#' || '=' !in line {
      return None;
    }
    var at := IndexOf(line, '=');
    var key := Strip(line[..at]);
    if !IsIdentifier(key) {
      return None;
    }
    return Some((key, Unquoted(line[at + 1..])));
  }

  method ParseEnvText(text: string) returns (values: map<string, string>)
    ensures values == Parsed(text)
  {
    values := map[];
    var lines := SplitLines(text);
    ghost var parse := LineParser();
    for i := 0 to |lines|
      invariant values == Defined(lines[..i], parse)
    {
      DefinedStep(lines, i, parse);
      var definition := ReadLine(lines[i]);
      if definition.Some? {
        values := values[definition.value.0 := definition.value.1];
      }
    }
    assert lines[..|lines|] == lines;
  }

  lemma DefinedStep(lines: seq<string>, i: nat, parse: string -> Option<(string, string)>)
    requires i < |lines|
    ensures Defined(lines[..i + 1], parse) == Define(Defined(lines[..i], parse), parse(lines[i]))
  {
    assert lines[..i + 1][..i] == lines[..i];
  }

  // ---------------------------------------------------------------------------
  // Writing
  // ---------------------------------------------------------------------------

  function Render(order: seq<string>, values: map<string, string>): string
    requires forall k :: k in order ==> k in values
  {
    if order == [] then "" else order[0] + "=" + values[order[0]] + "\n" + Render(order[1..], values)
  }

  /** The order of Python strings: by code points, a prefix first. */
  predicate TextLe(a: string, b: string) {
    a == "" || (b != "" && (a[0] < b[0] || (a[0] == b[0] && TextLe(a[1..], b[1..]))))
  }

  function TextOrder(): (string, string) -> bool { (a: string, b: string) => TextLe(a, b) }

  lemma {:induction false} TextTotal(a: string, b: string)
    ensures TextLe(a, b) || TextLe(b, a)
  {
    if a != "" && b != "" {
      TextTotal(a[1..], b[1..]);
    }
  }

  lemma {:induction false} TextTransitive(a: string, b: string, c: string)
    requires TextLe(a, b) && TextLe(b, c)
    ensures TextLe(a, c)
  {
    if a != "" && a[0] == b[0] && b[0] == c[0] {
      TextTransitive(a[1..], b[1..], c[1..]);
    }
  }

  lemma TextOrderIsTotal()
    ensures TotalPreorder(TextOrder())
  {
    var le := TextOrder();
    forall a, b ensures le(a, b) || le(b, a) { TextTotal(a, b); }
    forall a, b, c | le(a, b) && le(b, c) ensures le(a, c) { TextTransitive(a, b, c); }
  }

  /** The keys, each once, in the order of `sorted`. */
  ghost predicate Lists(order: seq<string>, keys: set<string>) {
    && (forall k :: k in order <==> k in keys)
    && NoRepeats(order)
    && Sorted(order, TextOrder())
  }

  method SortedKeys(keys: set<string>) returns (order: seq<string>)
    ensures Lists(order, keys)
  {
    TextOrderIsTotal();
    order := [];
    var rest := keys;
    while rest != {}
      invariant rest <= keys && Sorted(order, TextOrder())
      invariant forall k :: multiset(order)[k] == if k in keys && k !in rest then 1 else 0
      decreases |rest|
    {
      var k :| k in rest;
      InsertPermutes(k, order, TextOrder());
      InsertSorts(k, order, TextOrder());
      order := Insert(k, order, TextOrder());
      rest := rest - {k};
    }
    forall k ensures k in order <==> k in keys {
      assert k in order <==> multiset(order)[k] > 0;
    }
  }

  /** There is only one such list. */
  lemma OneOrder(a: seq<string>, b: seq<string>, keys: set<string>)
    requires Lists(a, keys) && Lists(b, keys)
    ensures a == b
  {
    TextOrderIsAntisymmetric();
    forall k ensures multiset(a)[k] == multiset(b)[k] {
      assert k in a <==> k in b;
      assert multiset(a)[k] > 0 <==> k in a;
      assert multiset(b)[k] > 0 <==> k in b;
    }
    SortedUnique(a, b, TextOrder());
  }

  lemma {:induction false} TextAntisymmetric(a: string, b: string)
    requires TextLe(a, b) && TextLe(b, a)
    ensures a == b
  {
    if a != "" {
      TextAntisymmetric(a[1..], b[1..]);
      assert a == [a[0]] + a[1..] && b == [b[0]] + b[1..];
    }
  }

  lemma TextOrderIsAntisymmetric()
    ensures Antisymmetric(TextOrder())
  {
    var le := TextOrder();
    forall a, b | le(a, b) && le(b, a) ensures a == b { TextAntisymmetric(a, b); }
  }

  ghost predicate Writes(content: string, values: map<string, string>, order: seq<string>) {
    Lists(order, values.Keys) && content == Render(order, values)
  }

  method WriteEnvFile(values: map<string, string>) returns (content: string)
    ensures exists order :: Writes(content, values, order)
  {
    var keys := SortedKeys(values.Keys);
    content := "";
    for i := 0 to |keys|
      invariant content + Render(keys[i..], values) == Render(keys, values)
    {
      assert keys[i] in keys && keys[i..][1..] == keys[i + 1..];
      var line := keys[i] + "=" + values[keys[i]] + "\n";
      assert content + (line + Render(keys[i + 1..], values)) == (content + line) + Render(keys[i + 1..], values);
      content := content + line;
    }
    assert Writes(content, values, keys);
  }

  // ---------------------------------------------------------------------------
  // Merging
  // ---------------------------------------------------------------------------

  const PROD_SMTP_KEYS: seq<string> := [
    "SMTP_HOST", "SMTP_PORT", "SMTP_SSL", "SMTP_STARTTLS", "SMTP_USER", "SMTP_PASS", "SMTP_FROM_EMAIL",
    "SMTP_FROM_NAME", "SMTP_ACCOUNT_LABEL"]

  const ROUTE_SOURCE := "SMTP_ROUTE_SOURCE"

  function Lookup(m: map<string, string>, k: string): Option<string> {
    if k in m then Some(m[k]) else None
  }

  /** What the merged file says of a key. */
  function Merged(base: map<string, string>, smtp: map<string, string>, sourceLabel: string,
                  k: string): Option<string> {
    if k == ROUTE_SOURCE then Some(sourceLabel)
    else if k in PROD_SMTP_KEYS then Lookup(smtp, k)
    else Lookup(base, k)
  }

  /** Overlays the route of `smtp`: of the listed keys none is taken from the base. */
  method MergeEnvFiles(base: map<string, string>, smtp: map<string, string>, sourceLabel: string)
    returns (merged: map<string, string>)
    ensures forall k :: Lookup(merged, k) == Merged(base, smtp, sourceLabel, k)
    ensures "SMTP_ROUTE_SOURCE" in merged && merged["SMTP_ROUTE_SOURCE"] == sourceLabel
    ensures forall k :: k in PROD_SMTP_KEYS ==>
      (k in merged <==> k in smtp) && (k in smtp ==> merged[k] == smtp[k])
    ensures forall k :: k !in PROD_SMTP_KEYS && k != "SMTP_ROUTE_SOURCE" ==>
      (k in merged <==> k in base) && (k in base ==> merged[k] == base[k])
  {
    merged := map k | k in base && k !in PROD_SMTP_KEYS :: base[k];
    for i := 0 to |PROD_SMTP_KEYS|
      invariant forall k :: k in PROD_SMTP_KEYS[..i] ==> Lookup(merged, k) == Lookup(smtp, k)
      invariant forall k :: k in PROD_SMTP_KEYS && k !in PROD_SMTP_KEYS[..i] ==> k !in merged
      invariant forall k :: k !in PROD_SMTP_KEYS ==> Lookup(merged, k) == Lookup(base, k)
    {
      var key := PROD_SMTP_KEYS[i];
      assert PROD_SMTP_KEYS[..i + 1] == PROD_SMTP_KEYS[..i] + [key];
      if key in smtp {
        merged := merged[key := smtp[key]];
      }
    }
    assert PROD_SMTP_KEYS[..|PROD_SMTP_KEYS|] == PROD_SMTP_KEYS;
    merged := merged[ROUTE_SOURCE := sourceLabel];
  }

  // ---------------------------------------------------------------------------
  // The round trip
  // ---------------------------------------------------------------------------

  lemma RightStrippedTail(key: string, value: string, drop: char -> bool)
    requires key != "" && !drop(key[|key| - 1])
    ensures RightStripped(key + value, drop) == key + RightStripped(value, drop)
    decreases |value|
  {
    var s := key + value;
    if value == "" {
      assert s == key;
    } else if drop(value[|value| - 1]) {
      assert s[..|s| - 1] == key + value[..|value| - 1];
      RightStrippedTail(key, value[..|value| - 1], drop);
    }
  }

  lemma {:induction false} StripTwice(s: string, drop: char -> bool)
    ensures Stripped(RightStripped(s, drop), drop) == Stripped(s, drop)
    decreases |s|
  {
    if s != "" && drop(s[|s| - 1]) {
      var t := s[..|s| - 1];
      StripTwice(t, drop);
      LeftThenRight(t, s[|s| - 1], drop);
      assert s == t + [s[|s| - 1]];
    }
  }

  /** A character to drop at the end makes no difference. */
  lemma {:induction false} LeftThenRight(t: string, c: char, drop: char -> bool)
    requires drop(c)
    ensures Stripped(t + [c], drop) == Stripped(t, drop)
    decreases |t|
  {
    var s := t + [c];
    if t == "" {
      assert s[1..] == "";
    } else if drop(t[0]) {
      assert s[1..] == t[1..] + [c];
      LeftThenRight(t[1..], c, drop);
    } else {
      assert s[..|s| - 1] == t;
    }
  }

  lemma StrippedOwnLine(key: string, value: string)
    requires IsIdentifier(key)
    ensures Strip(key + "=" + value) == key + "=" + RightStripped(value, SpaceChars())
  {
    var raw, drop := key + "=" + value, SpaceChars();
    assert raw[0] == key[0];
    assert LeftStripped(raw, drop) == raw;
    assert raw == (key + "=") + value;
    RightStrippedTail(key + "=", value, drop);
  }

  lemma KeyIsStripped(key: string)
    requires IsIdentifier(key)
    ensures Strip(key) == key
  {
    assert key[|key| - 1] in key;
  }

  lemma FirstEquals(left: string, right: string)
    requires '=' !in left
    ensures '=' in left + "=" + right && IndexOf(left + "=" + right, '=') == |left|
  {
    var line := left + "=" + right;
    assert line[|left|] == '=';
    var i := IndexOf(line, '=');
    assert forall k :: 0 <= k < |left| ==> line[k] == left[k] && left[k] in left;
    assert forall k :: 0 <= k < i ==> line[k] in line[..i];
  }

  lemma ParseOwnStripped(key: string, rest: string)
    requires IsIdentifier(key)
    ensures ParseStripped(key + "=" + rest) == Some((key, Unquoted(rest)))
  {
    var line := key + "=" + rest;
    FirstEquals(key, rest);
    KeyIsStripped(key);
    assert line[..|key|] == key && line[|key| + 1..] == rest && line[0] == key[0];
  }

  lemma ParseOwnLine(key: string, value: string)
    requires IsIdentifier(key)
    ensures ParseLine(key + "=" + value) == Some((key, Unquoted(value)))
  {
    var kept := RightStripped(value, SpaceChars());
    StrippedOwnLine(key, value);
    ParseOwnStripped(key, kept);
    StripTwice(value, SpaceChars());
  }

  // What a line defines.

  /** The line is a key and a value around its first equals sign. */
  ghost predicate Splits(line: string, left: string, right: string, key: string, value: string) {
    && line == left + "=" + right && '=' !in left
    && key == Strip(left) && IsIdentifier(key) && value == Unquoted(right)
  }

  lemma CommentHasNoKey(left: string)
    requires left != "" && left[0] == '#'
    ensures !IsIdentifier(Strip(left))
  {
    assert LeftStripped(left, SpaceChars()) == left;
    var key := RightStripped(left, SpaceChars());
    assert key != "" ==> key[0] == left[0];
  }

  lemma SplitDefines(line: string, left: string, right: string, key: string, value: string)
    requires Splits(line, left, right, key, value)
    ensures ParseStripped(line) == Some((key, value))
  {
    FirstEquals(left, right);
    assert line[..|left|] == left && line[|left| + 1..] == right;
    if left != "" && left[0] == '#' {
      CommentHasNoKey(left);
    }
    assert left != "" ==> line[0] == left[0];
  }

  lemma DefinesSplits(line: string) returns (left: string, right: string)
    requires ParseStripped(line).Some?
    ensures Splits(line, left, right, ParseStripped(line).value.0, ParseStripped(line).value.1)
  {
    var i := IndexOf(line, '=');
    left, right := line[..i], line[i + 1..];
    assert line == left + "=" + right;
  }

  /** A line defines a key exactly when, stripped, it is an identifier and a value around its first equals sign; the
      check for comments never decides. */
  lemma LineDefinesExactly(raw: string, key: string, value: string)
    ensures ParseLine(raw) == Some((key, value)) <==> exists left, right :: Splits(Strip(raw), left, right, key, value)
  {
    if ParseLine(raw) == Some((key, value)) {
      var left, right := DefinesSplits(Strip(raw));
      assert Splits(Strip(raw), left, right, key, value);
    }
    if left, right :| Splits(Strip(raw), left, right, key, value) {
      SplitDefines(Strip(raw), left, right, key, value);
    }
  }

  function LinesOf(order: seq<string>, values: map<string, string>): (lines: seq<string>)
    requires forall k :: k in order ==> k in values
    ensures |lines| == |order| && forall i :: 0 <= i < |lines| ==> lines[i] == order[i] + "=" + values[order[i]]
  {
    if order == [] then [] else [order[0] + "=" + values[order[0]]] + LinesOf(order[1..], values)
  }

  lemma {:induction false} RenderedLines(order: seq<string>, values: map<string, string>)
    requires forall k :: k in order ==> k in values && IsIdentifier(k) && OneLine(values[k])
    ensures SplitLines(Render(order, values)) == LinesOf(order, values)
  {
    if order != [] {
      var k := order[0];
      assert k in order;
      var line := k + "=" + values[k];
      forall c | c in line ensures !IsBreak(c) {
        assert c in k || c == '=' || c in values[k];
      }
      RenderedLines(order[1..], values);
      SplitAfterLine(line, Render(order[1..], values));
    }
  }

  /** Lines that each define a key of their own define just these. */
  lemma {:induction false} DefinedExactly(lines: seq<string>, parse: string -> Option<(string, string)>,
                                          keys: seq<string>,
                                          results: seq<string>)
    requires |lines| == |keys| == |results| && forall i :: 0 <= i < |lines| ==>
      parse(lines[i]) == Some((keys[i], results[i]))
    requires forall i, j :: 0 <= i < j < |keys| ==> keys[i] != keys[j]
    ensures forall k :: k in Defined(lines, parse) <==> k in keys
    ensures forall i :: 0 <= i < |keys| ==>
      keys[i] in Defined(lines, parse) && Defined(lines, parse)[keys[i]] == results[i]
    decreases |lines|
  {
    if lines != [] {
      var n := |lines| - 1;
      DefinedExactly(lines[..n], parse, keys[..n], results[..n]);
      assert keys == keys[..n] + [keys[n]];
      forall i | 0 <= i < n ensures keys[i] in Defined(lines, parse) && Defined(lines, parse)[keys[i]] == results[i] {
        assert keys[..n][i] == keys[i] && results[..n][i] == results[i];
      }
    }
  }

  function Mapped(order: seq<string>, values: map<string, string>, f: string -> string): (r: seq<string>)
    requires forall k :: k in order ==> k in values
    ensures |r| == |order| && forall i :: 0 <= i < |r| ==> r[i] == f(values[order[i]])
  {
    if order == [] then [] else [f(values[order[0]])] + Mapped(order[1..], values, f)
  }

  function Unquoting(): string -> string { (s: string) => Unquoted(s) }

  function UnquotedValues(order: seq<string>, values: map<string, string>): seq<string>
    requires forall k :: k in order ==> k in values
  {
    Mapped(order, values, Unquoting())
  }

  lemma WrittenLines(values: map<string, string>, order: seq<string>)
    requires Lists(order, values.Keys) && forall k :: k in values ==> IsIdentifier(k) && OneLine(values[k])
    ensures var parsed := Parsed(Render(order, values));
      && (forall k :: k in parsed <==> k in order)
      && (forall i :: 0 <= i < |order| ==> order[i] in parsed && parsed[order[i]] == Unquoting()(values[order[i]]))
  {
    RenderedLines(order, values);
    var lines := LinesOf(order, values);
    forall i | 0 <= i < |lines| ensures LineParser()(lines[i]) == Some((order[i], UnquotedValues(order, values)[i])) {
      assert order[i] in order;
      ParseOwnLine(order[i], values[order[i]]);
    }
    forall i, j | 0 <= i < j < |order| ensures order[i] != order[j] { OneOfEach(order, i, j); }
    DefinedExactly(lines, LineParser(), order, UnquotedValues(order, values));
  }

  function MappedValues(values: map<string, string>, f: string -> string): map<string, string> {
    map k | k in values :: f(values[k])
  }

  lemma KeysAndValues(values: map<string, string>, order: seq<string>, parsed: map<string, string>, f: string -> string)
    requires forall k :: k in order <==> k in values
    requires forall k :: k in parsed <==> k in order
    requires forall i :: 0 <= i < |order| ==> parsed[order[i]] == f(values[order[i]])
    ensures parsed == MappedValues(values, f)
  {
    forall k | k in values ensures k in parsed && parsed[k] == f(values[k]) {
      var i :| 0 <= i < |order| && order[i] == k;
    }
  }

  /** What a written file parses to. */
  lemma Reparsed(values: map<string, string>, order: seq<string>)
    requires Lists(order, values.Keys) && forall k :: k in values ==> IsIdentifier(k) && OneLine(values[k])
    ensures Parsed(Render(order, values)) == MappedValues(values, Unquoting())
  {
    WrittenLines(values, order);
    KeysAndValues(values, order, Parsed(Render(order, values)), Unquoting());
  }

  // What parsing can yield.

  lemma {:induction false} LeftKeeps(s: string, drop: char -> bool)
    ensures forall c :: c in LeftStripped(s, drop) ==> c in s
  {
    if s != "" && drop(s[0]) {
      LeftKeeps(s[1..], drop);
    }
  }

  lemma StrippedKeeps(s: string, drop: char -> bool)
    ensures forall c :: c in Stripped(s, drop) ==> c in s
  {
    LeftKeeps(s, drop);
  }

  lemma LineYields(raw: string)
    requires OneLine(raw) && ParseLine(raw).Some?
    ensures IsIdentifier(ParseLine(raw).value.0) && OneLine(ParseLine(raw).value.1)
  {
    var line := Strip(raw);
    StrippedKeeps(raw, SpaceChars());
    var value := line[IndexOf(line, '=') + 1..];
    forall c | c in value ensures c in line { }
    StrippedKeeps(value, SpaceChars());
    StrippedKeeps(Strip(value), Only('\''));
    StrippedKeeps(Stripped(Strip(value), Only('\'')), Only('"'));
  }

  lemma {:induction false} DefinedYields(lines: seq<string>)
    requires forall l :: l in lines ==> OneLine(l)
    ensures var values := Defined(lines, LineParser());
      forall k :: k in values ==> IsIdentifier(k) && OneLine(values[k])
    decreases |lines|
  {
    if lines != [] {
      var last := lines[|lines| - 1];
      assert last in lines;
      DefinedYields(lines[..|lines| - 1]);
      if ParseLine(last).Some? {
        LineYields(last);
      }
    }
  }

  /** Whatever the text, what it defines are identifiers with values of one line. */
  lemma ParsingYields(text: string)
    ensures forall k :: k in Parsed(text) ==> IsIdentifier(k) && OneLine(Parsed(text)[k])
  {
    LinesAreSingle(text);
    DefinedYields(SplitLines(text));
  }

  lemma UnchangedExactly(values: map<string, string>)
    ensures MappedValues(values, Unquoting()) == values <==> forall k :: k in values ==> CleanEdges(values[k])
  {
    var unquoted := MappedValues(values, Unquoting());
    forall k | k in values ensures unquoted[k] == values[k] <==> CleanEdges(values[k]) {
      UnquotedExactly(values[k]);
    }
  }

  /** A written file parses to the same values exactly when every key is an identifier and every value is one line
      without white space or quotes at its edges. */
  lemma RoundTripExactly(values: map<string, string>, order: seq<string>)
    requires Lists(order, values.Keys)
    ensures Parsed(Render(order, values)) == values
      <==> ((forall k :: k in values ==> IsIdentifier(k) && OneLine(values[k]))
            && (forall k :: k in values ==> CleanEdges(values[k])))
  {
    ParsingYields(Render(order, values));
    if forall k :: k in values ==> IsIdentifier(k) && OneLine(values[k]) {
      Reparsed(values, order);
      UnchangedExactly(values);
    }
  }

  lemma EnclosedSpace()
    ensures Stripped("\" a\"", Only('"')) == " a"
  {
    var v, q := "\" a\"", Only('"');
    assert v[1..] == " a\"" && v[1..][..2] == " a";
    assert LeftStripped(v[1..], q) == v[1..];
    assert RightStripped(" a", q) == " a";
  }

  lemma EnclosedUnquotes()
    ensures Unquoted("\" a\"") == " a"
  {
    EnclosedSpace();
    assert Strip("\" a\"") == "\" a\"";
    assert Stripped("\" a\"", Only('\'')) == "\" a\"";
  }

  /** Parsed values need not survive another round: the quotes are stripped once each, so white space they
      enclosed ends up at an edge. */
  lemma ParsedValuesCanBeUnstable(key: string)
    requires IsIdentifier(key)
    ensures ParseLine(key + "=" + "\" a\"") == Some((key, " a"))
    ensures !CleanEdges(" a")
  {
    ParseOwnLine(key, "\" a\"");
    EnclosedUnquotes();
  }
}
