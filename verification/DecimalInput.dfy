/**
 Grouped decimal input with caret restoration (frontend/src/App.jsx).

 A string is a sequence of characters; the functions look at digits, the dot, the comma and white
 space only.
 */
module DecimalInput {
  import opened Outcomes

  type Text = seq<char>

  predicate IsDigit(c: char) { '0' <= c <= '9' }

  /** The characters `[^\d.]` does not match. */
  predicate IsPlain(c: char) { IsDigit(c) || c == '.' }

  predicate IsSpace(c: char) {
    c in {' ', '\t', '\n', '\r', '\U{000B}', '\U{000C}', '\U{00A0}', '\U{1680}', '\U{2028}', '\U{2029}', '\U{202F}',
          '\U{205F}', '\U{3000}', '\U{FEFF}'} || '\U{2000}' <= c <= '\U{200A}'
  }

  function Without(s: Text, c: char): Text {
    if s == [] then []
    else if s[0] == c then Without(s[1..], c)
    else [s[0]] + Without(s[1..], c)
  }

  function TrimStart(s: Text): Text {
    if s != [] && IsSpace(s[0]) then TrimStart(s[1..]) else s
  }

  function TrimEnd(s: Text): Text {
    if s != [] && IsSpace(s[|s| - 1]) then TrimEnd(s[..|s| - 1]) else s
  }

  function StripGrouping(s: Text): Text {
    TrimEnd(TrimStart(Without(s, ',')))
  }

  function Plain(s: Text): Text {
    if s == [] then []
    else if IsPlain(s[0]) then [s[0]] + Plain(s[1..])
    else Plain(s[1..])
  }

  /** `text.indexOf(".")`, or the length when there is no dot. */
  function FirstDot(s: Text): (i: nat)
    ensures i <= |s| && (i < |s| ==> s[i] == '.') && forall j :: 0 <= j < i ==> s[j] != '.'
  {
    if s == [] || s[0] == '.' then 0 else 1 + FirstDot(s[1..])
  }

  function SanitizeDecimalInput(value: Text): Text {
    var text := Plain(StripGrouping(value));
    var dot := FirstDot(text);
    if dot == |text| then text
    else
      var integerPart := Without(text[..dot], '.');
      (if integerPart == [] then "0" else integerPart) + "." + Without(text[dot + 1..], '.')
  }

  /** Every position of an integer part that has a digit before it and a positive multiple of three
      digits after it gets a comma: the matches of `\B(?=(\d{3})+(?!\d))`. */
  function Grouped(digits: Text): Text {
    if digits == [] then []
    else if |digits| > 1 && (|digits| - 1) % 3 == 0 then [digits[0], ','] + Grouped(digits[1..])
    else [digits[0]] + Grouped(digits[1..])
  }

  function FormatGroupedDecimalInput(value: Text): Text {
    var text := SanitizeDecimalInput(value);
    var dot := FirstDot(text);
    if dot == |text| then Grouped(text) else Grouped(text[..dot]) + text[dot..]
  }

  /** The caret position the loop in `restoreDecimalInputCaret` settles on. */
  method RestoreDecimalInputCaret(formatted: Text, plainLength: int) returns (caret: nat)
    ensures caret == CaretAfter(formatted, plainLength)
  {
    if plainLength <= 0 {
      return 0;
    }
    var seen := 0;
    caret := |formatted|;
    for idx := 0 to |formatted|
      invariant seen == |Plain(formatted[..idx])| < plainLength
      invariant caret == |formatted|
      invariant CaretAfter(formatted, plainLength) == idx + CaretAfter(formatted[idx..], plainLength - seen)
    {
      PlainNext(formatted, idx);
      assert formatted[idx..][1..] == formatted[idx + 1..];
      if IsPlain(formatted[idx]) {
        seen := seen + 1;
        if seen >= plainLength {
          return idx + 1;
        }
      }
    }
    assert formatted[..|formatted|] == formatted;
  }

  /** Right after the n-th plain character, or the end of the text if there are fewer. */
  function CaretAfter(s: Text, n: int): (caret: nat)
    ensures caret <= |s|
    decreases |s|
  {
    if n <= 0 || s == [] then 0
    else 1 + CaretAfter(s[1..], if IsPlain(s[0]) then n - 1 else n)
  }

  /** What is left of the cursor: `selectionStart` may be missing, and `slice` stops at the end. */
  function LeftOf(rawValue: Text, selectionStart: Option<nat>): Text {
    if selectionStart.Some? && selectionStart.value <= |rawValue| then rawValue[..selectionStart.value] else rawValue
  }

  /** The formatted text and the caret `handleGroupedDecimalInput` puts into the input. */
  method HandleGroupedDecimalInput(rawValue: Text, selectionStart: Option<nat>) returns (formatted: Text, caret: nat)
    ensures formatted == FormatGroupedDecimalInput(rawValue)
    ensures caret <= |formatted|
    ensures var left := if selectionStart.Some? && selectionStart.value <= |rawValue| then
                          rawValue[..selectionStart.value]
                        else rawValue;
      Without(formatted[..caret], ',') == SanitizeDecimalInput(left)
    ensures caret > 0 ==> formatted[caret - 1] != ','
  {
    var left := LeftOf(rawValue, selectionStart);
    var leftSanitized := SanitizeDecimalInput(left);
    formatted := FormatGroupedDecimalInput(rawValue);
    caret := RestoreDecimalInputCaret(formatted, |leftSanitized|);
    CaretKeepsPlace(rawValue, |left|);
    assert left == rawValue[..|left|];
  }

  // ---------------------------------------------------------------------------
  // Filters
  // ---------------------------------------------------------------------------

  lemma {:induction false} PlainAppend(a: Text, b: Text)
    ensures Plain(a + b) == Plain(a) + Plain(b)
  {
    if a == [] {
      assert a + b == b;
    } else {
      PlainAppend(a[1..], b);
      assert (a + b)[1..] == a[1..] + b;
    }
  }

  lemma PlainNext(s: Text, i: nat)
    requires i < |s|
    ensures Plain(s[..i + 1]) == Plain(s[..i]) + (if IsPlain(s[i]) then [s[i]] else [])
  {
    assert s[..i + 1] == s[..i] + [s[i]];
    PlainAppend(s[..i], [s[i]]);
  }

  lemma {:induction false} WithoutAppend(a: Text, b: Text, c: char)
    ensures Without(a + b, c) == Without(a, c) + Without(b, c)
  {
    if a == [] {
      assert a + b == b;
    } else {
      WithoutAppend(a[1..], b, c);
      assert (a + b)[1..] == a[1..] + b;
    }
  }

  ghost predicate AllPlain(s: Text) {
    forall i :: 0 <= i < |s| ==> IsPlain(s[i])
  }

  lemma {:induction false} PlainIsPlain(s: Text)
    ensures AllPlain(Plain(s)) && |Plain(s)| <= |s|
    ensures AllPlain(s) ==> Plain(s) == s
  {
    if s != [] {
      PlainIsPlain(s[1..]);
    }
  }

  lemma {:induction false} WithoutAbsent(s: Text, c: char)
    ensures c !in s ==> Without(s, c) == s
    ensures c !in Without(s, c) && AllPlain(s) ==> AllPlain(Without(s, c))
    ensures c !in Without(s, c)
  {
    if s != [] {
      WithoutAbsent(s[1..], c);
    }
  }

  /** Removing commas and trimming does not matter to the filter that follows. */
  lemma {:induction false} PlainIgnoresGrouping(s: Text)
    ensures Plain(Without(s, ',')) == Plain(s)
    ensures Plain(TrimStart(s)) == Plain(s)
  {
    if s != [] {
      PlainIgnoresGrouping(s[1..]);
      if s[0] != ',' {
        assert ([s[0]] + Without(s[1..], ','))[1..] == Without(s[1..], ',');
      }
    }
  }

  lemma {:induction false} PlainIgnoresTrimEnd(s: Text)
    ensures Plain(TrimEnd(s)) == Plain(s)
  {
    if s != [] && IsSpace(s[|s| - 1]) {
      PlainIgnoresTrimEnd(s[..|s| - 1]);
      PlainNext(s, |s| - 1);
      assert s[..|s|] == s;
    }
  }

  lemma PlainOfStripped(s: Text)
    ensures Plain(StripGrouping(s)) == Plain(s)
  {
    PlainIgnoresTrimEnd(TrimStart(Without(s, ',')));
    PlainIgnoresGrouping(Without(s, ','));
    PlainIgnoresGrouping(s);
  }

  // ---------------------------------------------------------------------------
  // The shape of sanitized text
  // ---------------------------------------------------------------------------

  /** What sanitizing does to text that is already free of other characters. */
  function Normal(text: Text): Text {
    var dot := FirstDot(text);
    if dot == |text| then text
    else Joined(text[..dot], text[dot + 1..])
  }

  function Joined(head: Text, tail: Text): Text {
    (if head == [] then "0" else head) + "." + Without(tail, '.')
  }

  lemma SanitizedIsNormal(value: Text)
    ensures SanitizeDecimalInput(value) == Normal(Plain(value))
  {
    PlainOfStripped(value);
    var text := Plain(value);
    WithoutAbsent(text[..FirstDot(text)], '.');
  }

  lemma JoinedMore(head: Text, tail: Text, more: Text)
    ensures Joined(head, tail + more) == Joined(head, tail) + Without(more, '.')
  {
    WithoutAppend(tail, more, '.');
  }

  lemma SplitAtDot(a: Text, dot: nat, b: Text)
    requires dot < |a|
    ensures (a + b)[..dot] == a[..dot] && (a + b)[dot + 1..] == a[dot + 1..] + b
  {
  }

  lemma NormalPrefix(a: Text, b: Text)
    ensures Normal(a) <= Normal(a + b)
  {
    var i, j := FirstDot(a), FirstDot(b);
    if i < |a| {
      FirstDotIs(a + b, i);
      SplitAtDot(a, i, b);
      JoinedMore(a[..i], a[i + 1..], b);
    } else {
      FirstDotIs(a + b, |a| + j);
      if j < |b| && a != [] {
        assert (a + b)[..|a| + j] == a + b[..j];
        assert a <= Joined(a + b[..j], (a + b)[|a| + j + 1..]);
      }
    }
  }

  lemma {:induction false} FirstDotIs(s: Text, i: nat)
    requires i <= |s| && (i < |s| ==> s[i] == '.') && forall j :: 0 <= j < i ==> s[j] != '.'
    ensures FirstDot(s) == i
  {
  }

  /** Sanitizing what is left of the cursor gives a prefix of what sanitizing the whole gives. */
  lemma SanitizePrefix(value: Text, k: nat)
    requires k <= |value|
    ensures SanitizeDecimalInput(value[..k]) <= SanitizeDecimalInput(value)
  {
    SanitizedIsNormal(value);
    SanitizedIsNormal(value[..k]);
    assert value == value[..k] + value[k..];
    PlainAppend(value[..k], value[k..]);
    NormalPrefix(Plain(value[..k]), Plain(value[k..]));
  }

  /** Sanitized text: plain characters only, at most one dot, and never a dot first. */
  ghost predicate Sanitized(s: Text) {
    && AllPlain(s)
    && (FirstDot(s) < |s| ==> FirstDot(s) > 0 && '.' !in s[FirstDot(s) + 1..])
  }

  lemma NormalIsSanitized(text: Text)
    requires AllPlain(text)
    ensures Sanitized(Normal(text))
  {
    var dot := FirstDot(text);
    if dot < |text| {
      var head := if dot == 0 then "0" else text[..dot];
      WithoutAbsent(text[dot + 1..], '.');
      FirstDotIs(Normal(text), |head|);
      assert Normal(text)[|head| + 1..] == Without(text[dot + 1..], '.');
    }
  }

  lemma NormalFixes(s: Text)
    requires Sanitized(s)
    ensures Normal(s) == s
  {
    if FirstDot(s) < |s| {
      WithoutAbsent(s[FirstDot(s) + 1..], '.');
    }
  }

  // ---------------------------------------------------------------------------
  // Grouping
  // ---------------------------------------------------------------------------

  lemma {:induction false} UngroupGrouped(digits: Text)
    requires ',' !in digits
    ensures Without(Grouped(digits), ',') == digits
  {
    if digits != [] {
      var rest := Grouped(digits[1..]);
      UngroupGrouped(digits[1..]);
      assert ([digits[0]] + rest)[1..] == rest;
      assert ([digits[0], ','] + rest)[1..][1..] == rest;
    }
  }

  /** The last three digits of a longer number stand alone behind a comma. */
  lemma {:induction false} GroupsOfThree(a: Text, b: Text)
    requires a != [] && |b| == 3
    ensures Grouped(a + b) == Grouped(a) + "," + b
  {
    if |a| == 1 {
      assert (a + b)[1..] == b;
      ShortUngrouped(a);
      ShortUngrouped(b);
    } else {
      GroupsOfThree(a[1..], b);
      assert (a + b)[1..] == a[1..] + b;
      assert (|a + b| - 1) % 3 == (|a| - 1) % 3;
    }
  }

  /** Up to three digits get no comma. */
  lemma ShortUngrouped(a: Text)
    requires |a| <= 3
    ensures Grouped(a) == a
  {
    if |a| == 1 {
      assert a[1..] == [];
    } else if |a| > 1 {
      ShortUngrouped(a[1..]);
    }
  }

  lemma SanitizedHasNoComma(value: Text)
    ensures Sanitized(SanitizeDecimalInput(value)) && ',' !in SanitizeDecimalInput(value)
  {
    SanitizedIsNormal(value);
    PlainIsPlain(value);
    NormalIsSanitized(Plain(value));
  }

  /** Removing the commas from the formatted text gives back the sanitized text. */
  lemma UnformatFormatted(value: Text)
    ensures Without(FormatGroupedDecimalInput(value), ',') == SanitizeDecimalInput(value)
  {
    var text := SanitizeDecimalInput(value);
    SanitizedHasNoComma(value);
    UngroupParts(text, FirstDot(text));
    if FirstDot(text) == |text| {
      assert text[..|text|] == text && Grouped(text) + text[|text|..] == Grouped(text);
    }
  }

  lemma UngroupParts(text: Text, dot: nat)
    requires dot <= |text| && ',' !in text
    ensures Without(Grouped(text[..dot]) + text[dot..], ',') == text
  {
    UngroupGrouped(text[..dot]);
    WithoutAbsent(text[dot..], ',');
    WithoutAppend(Grouped(text[..dot]), text[dot..], ',');
    assert text == text[..dot] + text[dot..];
  }

  lemma {:induction false} PlainWithoutCommas(s: Text)
    requires AllPlain(Without(s, ','))
    ensures Plain(s) == Without(s, ',')
  {
    PlainIsPlain(Without(s, ','));
    PlainIgnoresGrouping(s);
  }

  /** Formatting formatted text changes nothing. */
  lemma FormatIdempotent(value: Text)
    ensures SanitizeDecimalInput(FormatGroupedDecimalInput(value)) == SanitizeDecimalInput(value)
    ensures FormatGroupedDecimalInput(FormatGroupedDecimalInput(value)) == FormatGroupedDecimalInput(value)
  {
    var formatted, text := FormatGroupedDecimalInput(value), SanitizeDecimalInput(value);
    UnformatFormatted(value);
    SanitizedHasNoComma(value);
    PlainWithoutCommas(formatted);
    SanitizedIsNormal(formatted);
    NormalFixes(text);
  }

  // ---------------------------------------------------------------------------
  // What the formatted text is
  // ---------------------------------------------------------------------------

  /** The digits of a text, in order. */
  function Digits(s: Text): Text {
    if s == [] then []
    else (if '0' <= s[0] <= '9' then [s[0]] else []) + Digits(s[1..])
  }

  lemma {:induction false} PlainDigits(s: Text)
    ensures Without(Plain(s), '.') == Digits(s)
    ensures '.' !in s ==> Plain(s) == Digits(s)
    ensures '.' in Plain(s) <==> '.' in s
  {
    if s != [] {
      PlainDigits(s[1..]);
      assert s == [s[0]] + s[1..];
      if IsPlain(s[0]) {
        assert ([s[0]] + Plain(s[1..]))[1..] == Plain(s[1..]);
      }
    }
  }

  /** Text without a dot is sanitized to its digits. */
  lemma SanitizeInteger(value: Text)
    requires '.' !in value
    ensures SanitizeDecimalInput(value) == Digits(value)
  {
    SanitizedIsNormal(value);
    PlainDigits(value);
    FirstDotIs(Plain(value), |Plain(value)|);
  }

  lemma PlainAround(head: Text, tail: Text)
    ensures Plain(head + "." + tail) == Plain(head) + "." + Plain(tail)
  {
    PlainAppend(head + ".", tail);
    PlainAppend(head, ".");
    assert "."[1..] == [];
  }

  lemma NormalAround(head: Text, tail: Text)
    requires '.' !in head
    ensures Normal(head + "." + tail) == Joined(head, tail)
  {
    var text := head + "." + tail;
    FirstDotIs(text, |head|);
    assert text[..|head|] == head && text[|head| + 1..] == tail;
  }

  /** Otherwise to the digits before its first dot, or a zero if there are none, that dot, and the digits behind it. */
  lemma SanitizeDecimal(value: Text, dot: nat)
    requires dot < |value| && value[dot] == '.' && '.' !in value[..dot]
    ensures SanitizeDecimalInput(value)
      == (if Digits(value[..dot]) == [] then "0" else Digits(value[..dot])) + "." + Digits(value[dot + 1..])
  {
    var head, tail := value[..dot], value[dot + 1..];
    assert value == head + "." + tail;
    SanitizedIsNormal(value);
    PlainAround(head, tail);
    PlainDigits(head);
    PlainDigits(tail);
    NormalAround(Plain(head), Plain(tail));
  }

  lemma {:induction false} GroupedCommas(digits: Text)
    requires ',' !in digits
    ensures |Grouped(digits)| == if digits == [] then 0 else |digits| + (|digits| - 1) / 3
    ensures forall i :: 0 <= i < |Grouped(digits)| ==> (Grouped(digits)[i] == ',' <==> (|Grouped(digits)| - i) % 4 == 0)
  {
    if digits != [] {
      var rest, all := Grouped(digits[1..]), Grouped(digits);
      GroupedCommas(digits[1..]);
      if |digits| > 1 && (|digits| - 1) % 3 == 0 {
        assert all == [digits[0], ','] + rest;
        forall i | 0 <= i < |all| ensures all[i] == ',' <==> (|all| - i) % 4 == 0 {
          if i >= 2 {
            assert all[i] == rest[i - 2];
          }
        }
      } else {
        assert all == [digits[0]] + rest;
        forall i | 0 <= i < |all| ensures all[i] == ',' <==> (|all| - i) % 4 == 0 {
          if i >= 1 {
            assert all[i] == rest[i - 1];
          }
        }
      }
    }
  }

  /** Formatted text is a grouped integer part, and behind it the rest without commas. */
  lemma FormatSplits(value: Text) returns (digits: Text, rest: Text)
    ensures FormatGroupedDecimalInput(value) == Grouped(digits) + rest
    ensures '.' !in digits && ',' !in digits && ',' !in rest && (rest != [] ==> rest[0] == '.')
  {
    var text := SanitizeDecimalInput(value);
    var dot := FirstDot(text);
    SanitizedHasNoComma(value);
    digits, rest := text[..dot], text[dot..];
    if dot == |text| {
      assert text[..|text|] == text && Grouped(text) + [] == Grouped(text);
    }
  }

  lemma CommaAt(head: Text, rest: Text, i: nat)
    requires i < |head + rest| && ',' !in rest
    requires forall k :: 0 <= k < |head| ==> (head[k] == ',' <==> (|head| - k) % 4 == 0)
    ensures (head + rest)[i] == ',' <==> i < |head| && (|head| - i) % 4 == 0
  {
    if i >= |head| {
      assert (head + rest)[i] == rest[i - |head|];
    }
  }

  lemma DotAt(head: Text, rest: Text, end: nat)
    requires '.' !in head && (rest != [] ==> rest[0] == '.')
    requires end <= |head + rest| && (end < |head + rest| ==> (head + rest)[end] == '.')
    requires '.' !in (head + rest)[..end]
    ensures end == |head|
  {
    FirstDotIs(head + rest, |head|);
    FirstDotIs(head + rest, end);
  }

  /** Left of the dot, or of the end, every fourth character from the right is a comma, and there is no other. */
  lemma CommasExactly(value: Text, end: nat, i: nat)
    requires var f := FormatGroupedDecimalInput(value);
      end <= |f| && (end < |f| ==> f[end] == '.') && '.' !in f[..end] && i < |f|
    ensures FormatGroupedDecimalInput(value)[i] == ',' <==> i < end && (end - i) % 4 == 0
  {
    var digits, rest := FormatSplits(value);
    GroupedCommas(digits);
    GroupedHasNoDot(digits);
    DotAt(Grouped(digits), rest, end);
    CommaAt(Grouped(digits), rest, i);
  }

  lemma {:induction false} GroupedHasNoDot(digits: Text)
    requires '.' !in digits
    ensures '.' !in Grouped(digits)
  {
    if digits != [] {
      GroupedHasNoDot(digits[1..]);
    }
  }

  // ---------------------------------------------------------------------------
  // The caret
  // ---------------------------------------------------------------------------

  lemma CaretMoves(s: Text, n: nat)
    requires n <= |Plain(s)|
    ensures CaretAfter(s, n) == 0 <==> n == 0
  {
  }

  lemma {:induction false} CaretSplits(s: Text, n: nat)
    requires n <= |Plain(s)|
    ensures Plain(s[..CaretAfter(s, n)]) == Plain(s)[..n]
    ensures CaretAfter(s, n) > 0 ==> IsPlain(s[CaretAfter(s, n) - 1])
    decreases |s|
  {
    if n > 0 {
      var m := if IsPlain(s[0]) then n - 1 else n;
      CaretSplits(s[1..], m);
      var caret := CaretAfter(s[1..], m);
      assert s[..1 + caret][1..] == s[1..][..caret];
      CaretMoves(s[1..], m);
    }
  }

  lemma {:induction false} WithoutPlain(s: Text)
    requires forall i :: 0 <= i < |s| ==> IsPlain(s[i]) || s[i] == ','
    ensures Without(s, ',') == Plain(s)
  {
    if s != [] {
      WithoutPlain(s[1..]);
    }
  }

  lemma {:induction false} GroupedChars(digits: Text)
    requires AllPlain(digits)
    ensures forall i :: 0 <= i < |Grouped(digits)| ==> IsPlain(Grouped(digits)[i]) || Grouped(digits)[i] == ','
  {
    if digits != [] {
      GroupedChars(digits[1..]);
    }
  }

  lemma FormattedChars(value: Text)
    ensures var f := FormatGroupedDecimalInput(value); forall i :: 0 <= i < |f| ==> IsPlain(f[i]) || f[i] == ','
  {
    SanitizedHasNoComma(value);
    var text := SanitizeDecimalInput(value);
    GroupedChars(text[..FirstDot(text)]);
    if FirstDot(text) == |text| {
      assert text[..|text|] == text;
    }
  }

  /** The text left of the restored caret, without its commas, is exactly the sanitized text left of
      the cursor the user had; the caret never rests behind a comma. */
  lemma CaretKeepsPlace(value: Text, cursor: nat)
    requires cursor <= |value|
    ensures var formatted, left := FormatGroupedDecimalInput(value), SanitizeDecimalInput(value[..cursor]);
      var caret := CaretAfter(formatted, |left|);
      && Without(formatted[..caret], ',') == left
      && (caret > 0 ==> formatted[caret - 1] != ',')
  {
    var formatted, text := FormatGroupedDecimalInput(value), SanitizeDecimalInput(value);
    var left := SanitizeDecimalInput(value[..cursor]);
    UnformatFormatted(value);
    SanitizedHasNoComma(value);
    PlainWithoutCommas(formatted);
    SanitizePrefix(value, cursor);
    CaretSplits(formatted, |left|);
    FormattedChars(value);
    WithoutPlain(formatted[..CaretAfter(formatted, |left|)]);
  }
}
