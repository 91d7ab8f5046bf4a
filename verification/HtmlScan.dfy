// The lexical part of the HTML parser: character classes, case-insensitive matching, entities, attributes.
module HtmlScan {
  predicate IsWs(c: char) { c == ' ' || c == '\t' || c == '\r' || c == '\n' }

  predicate IsNameChar(c: char) {
    'a' <= c <= 'z' || 'A' <= c <= 'Z' || '0' <= c <= '9' || c == '-' || c == '_' || c == ':'
  }

  function Lower(c: char): (l: char)
    ensures !('A' <= c <= 'Z') ==> l == c
  {
    if 'A' <= c <= 'Z' then (c as int + 32) as char else c
  }

  function LowerAll(s: string): (l: string)
    ensures |l| == |s|
  {
    seq(|s|, i requires 0 <= i < |s| => Lower(s[i]))
  }

  // The text at position i, up to len, starts with needle in any case.
  predicate Matches(html: string, i: nat, len: nat, needle: string)
    requires len <= |html|
  {
    i + |needle| <= len && forall j :: 0 <= j < |needle| ==> Lower(needle[j]) == Lower(html[i + j])
  }

  // The same character, or the same letter in the other case.
  ghost predicate SameLetter(a: char, b: char) {
    || a == b
    || ('A' <= a <= 'Z' && b as int == a as int + 32)
    || ('A' <= b <= 'Z' && a as int == b as int + 32)
  }

  // Folding to lower case tells exactly the texts apart that differ in more than case.
  lemma FoldedAlike(html: string, i: nat, len: nat, needle: string)
    requires len <= |html|
    ensures Matches(html, i, len, needle) <==>
            i + |needle| <= len && forall j :: 0 <= j < |needle| ==> SameLetter(html[i + j], needle[j])
  {
    if i + |needle| <= len {
      assert forall j :: 0 <= j < |needle| ==>
        (Lower(needle[j]) == Lower(html[i + j]) <==> SameLetter(html[i + j], needle[j]));
    }
  }

  // A name folded to lower case has no letter in upper case and is otherwise the same.
  lemma FoldedName(s: string)
    ensures |LowerAll(s)| == |s|
    ensures forall j :: 0 <= j < |s| ==> SameLetter(LowerAll(s)[j], s[j]) && !('A' <= LowerAll(s)[j] <= 'Z')
  {
  }

  // matches_ci
  method MatchesCi(html: string, i: nat, len: nat, needle: string) returns (b: bool)
    requires i <= len <= |html|
    ensures b == Matches(html, i, len, needle)
    ensures b <==> i + |needle| <= len && forall j :: 0 <= j < |needle| ==> SameLetter(html[i + j], needle[j])
  {
    FoldedAlike(html, i, len, needle);
    var j := 0;
    while j < |needle|
      invariant 0 <= j <= |needle| && i + j <= len
      invariant forall k :: 0 <= k < j ==> Lower(needle[k]) == Lower(html[i + k])
    {
      if i + j >= len { return false; }
      if Lower(html[i + j]) != Lower(needle[j]) { return false; }
      j := j + 1;
    }
    return true;
  }

  // Behind the next occurrence of needle, or at the end.
  function After(html: string, i: nat, needle: string): (r: nat)
    ensures i <= r && (i <= |html| ==> r <= |html|)
    decreases |html| - i
  {
    if i >= |html| then i else if Matches(html, i, |html|, needle) then i + |needle| else After(html, i + 1, needle)
  }

  // skip_until
  method SkipUntil(html: string, start: nat, needle: string) returns (i: nat)
    requires start <= |html|
    ensures i == After(html, start, needle)
  {
    i := start;
    while i < |html|
      invariant i <= |html| && After(html, start, needle) == After(html, i, needle)
    {
      var m := MatchesCi(html, i, |html|, needle);
      if m { return i + |needle|; }
      i := i + 1;
    }
  }

  // The end of the name that starts at i.
  function NameEnd(html: string, i: nat): (r: nat)
    ensures i <= r && (i <= |html| ==> r <= |html|)
    decreases |html| - i
  {
    if i < |html| && IsNameChar(html[i]) then NameEnd(html, i + 1) else i
  }

  // The next ">", or the end of the text.
  function TagEnd(html: string, i: nat): (r: nat)
    ensures i <= r && (i <= |html| ==> r <= |html|) && (r < |html| ==> html[r] == '>')
    decreases |html| - i
  {
    if i < |html| && html[i] != '>' then TagEnd(html, i + 1) else i
  }

  method ScanName(html: string, start: nat) returns (i: nat)
    requires start <= |html|
    ensures i == NameEnd(html, start)
  {
    i := start;
    while && i < |html|
          && ('a' <= html[i] <= 'z' || 'A' <= html[i] <= 'Z' || '0' <= html[i] <= '9'
              || html[i] == '-' || html[i] == '_' || html[i] == ':')
      invariant i <= |html| && NameEnd(html, start) == NameEnd(html, i)
    {
      i := i + 1;
    }
  }

  method ScanTag(html: string, start: nat) returns (i: nat)
    requires start <= |html|
    ensures i == TagEnd(html, start)
  {
    i := start;
    while i < |html| && html[i] != '>'
      invariant i <= |html| && TagEnd(html, start) == TagEnd(html, i)
    {
      i := i + 1;
    }
  }

  // ---------- Entities ----------

  // The value of a digit; -1 if it is none.
  function Digit(c: char, hex: bool): (v: int)
    ensures -1 <= v < if hex then 16 else 10
  {
    if '0' <= c <= '9' then c as int - '0' as int
    else if hex && 'a' <= c <= 'f' then c as int - 'a' as int + 10
    else if hex && 'A' <= c <= 'F' then c as int - 'A' as int + 10
    else -1
  }

  // The digits from i on, at most eight characters from start: where they end, and their value.
  function Digits(html: string, i: nat, start: nat, hex: bool, value: nat): (r: (nat, nat))
    requires start <= i
    ensures i <= r.0 && (i <= |html| ==> r.0 <= |html|)
    decreases |html| - i
  {
    if && i < |html| && html[i] != ';' && html[i] != '<' && html[i] != '&'
       && i - start < 8 && Digit(html[i], hex) >= 0 then
      Digits(html, i + 1, start, hex, value * (if hex then 16 else 10) + Digit(html[i], hex))
    else (i, value)
  }

  // The character shown for a code point.
  function Shown(value: nat): char {
    if 0x20 <= value <= 0x7E then value as char
    else if value == 0xA0 then ' '
    else if value == 0xAB then '<'
    else if value == 0xBB then '>'
    else if value == 0x2014 || value == 0x2013 then '-'
    else if value == 0x201C || value == 0x201D then '"'
    else if value == 0x2018 || value == 0x2019 then '\''
    else '?'
  }

  // A numeric entity whose "&#" ends before i: the character and how much is consumed.
  function Numeric(html: string, i: nat): (r: (char, nat))
    ensures 2 <= r.1 && (i <= |html| ==> i - 2 + r.1 <= |html|)
  {
    var hex := i < |html| && (html[i] == 'x' || html[i] == 'X');
    var (e, v) := Digits(html, if hex then i + 1 else i, i, hex, 0);
    var f := if e < |html| && html[e] == ';' then e + 1 else e;
    (Shown(v), f - i + 2)
  }

  // decode_numeric_entity
  method DecodeNumeric(html: string, start: nat) returns (c: char, consumed: nat)
    requires start <= |html|
    ensures (c, consumed) == Numeric(html, start)
  {
    var i, value: nat, hex := start, 0, false;
    if i < |html| && (html[i] == 'x' || html[i] == 'X') {
      hex := true;
      i := i + 1;
    }
    ghost var first := i;
    while i < |html| && html[i] != ';' && html[i] != '<' && html[i] != '&' && i - start < 8
      invariant first <= i <= |html| && Digits(html, first, start, hex, 0) == Digits(html, i, start, hex, value)
    {
      var c := html[i];
      if hex {
        if '0' <= c <= '9' { value := value * 16 + (c as int - '0' as int); }
        else if 'a' <= c <= 'f' { value := value * 16 + (c as int - 'a' as int) + 10; }
        else if 'A' <= c <= 'F' { value := value * 16 + (c as int - 'A' as int) + 10; }
        else { break; }
      } else {
        if '0' <= c <= '9' { value := value * 10 + (c as int - '0' as int); }
        else { break; }
      }
      i := i + 1;
    }
    if i < |html| && html[i] == ';' { i := i + 1; }
    consumed := i - start + 2;
    if value >= 0x20 && value <= 0x7E { return value as char, consumed; }
    if value == 0xA0 { return ' ', consumed; }
    if value == 0xAB { return '<', consumed; }
    if value == 0xBB { return '>', consumed; }
    if value == 0x2014 { return '-', consumed; }
    if value == 0x2013 { return '-', consumed; }
    if value == 0x201C || value == 0x201D { return '"', consumed; }
    if value == 0x2018 || value == 0x2019 { return '\'', consumed; }
    return '?', consumed;
  }

  // ---------- Numerals ----------

  predicate AllDigits(s: string, hex: bool) { forall k :: 0 <= k < |s| ==> Digit(s[k], hex) >= 0 }

  // The number that digits stand for, behind digits of value v.
  function ValueOf(s: string, hex: bool, v: nat): nat
    requires AllDigits(s, hex)
  {
    if s == "" then v else ValueOf(s[1..], hex, v * (if hex then 16 else 10) + Digit(s[0], hex))
  }

  // Digits up to a ";" are read as a whole.
  lemma {:induction false} DigitsRead(html: string, i: nat, start: nat, hex: bool, v: nat, s: string)
    requires start <= i && i + |s| < |html| && html[i..i + |s|] == s && html[i + |s|] == ';'
    requires AllDigits(s, hex) && i + |s| - start <= 8
    ensures Digits(html, i, start, hex, v) == (i + |s|, ValueOf(s, hex, v))
    decreases |s|
  {
    hide Digit;
    DigitMarks();
    if s != "" {
      assert html[i] == s[0] && html[i + 1..i + |s|] == s[1..];
      DigitsRead(html, i + 1, start, hex, v * (if hex then 16 else 10) + Digit(s[0], hex), s[1..]);
    }
  }

  lemma DigitMarks()
    ensures forall c, hex :: c == ';' || c == '<' || c == '&' || c == 'x' || c == 'X' ==> Digit(c, hex) == -1
  {
  }

  // "&#", the decimal digits of a code and ";" are the character of that code ...
  lemma {:induction false} DecimalEntity(html: string, i: nat, s: string)
    requires i + |s| + 3 <= |html| && html[i] == '&' && html[i + 1] == '#'
    requires html[i + 2..i + 2 + |s|] == s && html[i + 2 + |s|] == ';' && AllDigits(s, false) && 1 <= |s| <= 8
    ensures Entity(html, i) == (Shown(ValueOf(s, false, 0)), |s| + 3)
    ensures 0x20 <= ValueOf(s, false, 0) <= 0x7E ==> Entity(html, i).0 == ValueOf(s, false, 0) as char
  {
    hide Digit, Digits, ValueOf;
    DigitMarks();
    assert html[i + 2] == s[0];
    DigitsRead(html, i + 2, i + 2, false, 0, s);
  }

  // ... and so are "&#x", its hexadecimal digits and ";".
  lemma {:induction false} HexEntity(html: string, i: nat, s: string)
    requires i + |s| + 4 <= |html| && html[i] == '&' && html[i + 1] == '#' && (html[i + 2] == 'x' || html[i + 2] == 'X')
    requires html[i + 3..i + 3 + |s|] == s && html[i + 3 + |s|] == ';' && AllDigits(s, true) && 1 <= |s| <= 7
    ensures Entity(html, i) == (Shown(ValueOf(s, true, 0)), |s| + 4)
    ensures 0x20 <= ValueOf(s, true, 0) <= 0x7E ==> Entity(html, i).0 == ValueOf(s, true, 0) as char
  {
    hide Digit, Digits, ValueOf;
    DigitsRead(html, i + 3, i + 2, true, 0, s);
  }

  // A number in decimal digits.
  function Decimal(v: nat): (s: string)
    ensures s != ""
  {
    if v < 10 then [('0' as int + v) as char] else Decimal(v / 10) + [('0' as int + v % 10) as char]
  }

  lemma {:induction false} DecimalDigits(v: nat)
    ensures forall k :: 0 <= k < |Decimal(v)| ==> '0' <= Decimal(v)[k] <= '9'
  {
    if v >= 10 { DecimalDigits(v / 10); }
  }

  lemma {:induction false} ValueSnoc(s: string, c: char, v: nat)
    requires AllDigits(s, false) && '0' <= c <= '9'
    ensures AllDigits(s + [c], false)
    ensures ValueOf(s + [c], false, v) == ValueOf(s, false, v) * 10 + (c as int - '0' as int)
    decreases |s|
  {
    assert forall k :: 0 <= k < |s| ==> (s + [c])[k] == s[k];
    if s == "" {
      assert ValueOf([c], false, v) == ValueOf([c][1..], false, v * 10 + Digit(c, false));
    } else {
      assert (s + [c])[1..] == s[1..] + [c];
      ValueSnoc(s[1..], c, v * 10 + Digit(s[0], false));
    }
  }

  lemma {:induction false} DecimalValue(v: nat)
    ensures AllDigits(Decimal(v), false) && ValueOf(Decimal(v), false, 0) == v
  {
    DecimalDigits(v);
    if v < 10 {
      ValueSnoc("", Decimal(v)[0], 0);
      assert [] + [Decimal(v)[0]] == Decimal(v);
    } else {
      DecimalValue(v / 10);
      ValueSnoc(Decimal(v / 10), ('0' as int + v % 10) as char, 0);
    }
  }

  function Pow10(n: nat): nat { if n == 0 then 1 else 10 * Pow10(n - 1) }

  lemma {:induction false} DecimalLength(v: nat, n: nat)
    requires 1 <= n && v < Pow10(n)
    ensures |Decimal(v)| <= n
  {
    if v >= 10 { DecimalLength(v / 10, n - 1); }
  }

  // Every printable character has such an entity.
  lemma PrintableEntity(html: string, i: nat, c: char)
    requires ' ' <= c <= '~' && i + |Decimal(c as int)| + 3 <= |html| && html[i] == '&' && html[i + 1] == '#'
    requires html[i + 2..i + 2 + |Decimal(c as int)|] == Decimal(c as int) && html[i + 2 + |Decimal(c as int)|] == ';'
    ensures Entity(html, i) == (c, |Decimal(c as int)| + 3)
  {
    hide Decimal, ValueOf, Entity;
    DecimalValue(c as int);
    assert Pow10(3) == 1000;
    DecimalLength(c as int, 3);
    DecimalEntity(html, i, Decimal(c as int));
  }

  // The named entities, in the order in which they are tried.
  function Entities(): seq<(string, char)> {
    [
    ("&amp;", '&'), ("&apos;", '\''), ("&bull;", '*'), ("&cent;", 'c'), ("&copy;", '('), ("&deg;", 'o'),
    ("&divide;", '/'), ("&euro;", 'E'), ("&frac12;", '?'), ("&frac14;", '?'), ("&gt;", '>'), ("&laquo;", '<'),
    ("&lt;", '<'), ("&mdash;", '-'), ("&micro;", 'u'), ("&middot;", '.'), ("&minus;", '-'), ("&nbsp;", ' '),
    ("&ndash;", '-'), ("&not;", '!'), ("&para;", 'P'), ("&plusmn;", '+'), ("&pound;", 'L'), ("&quot;", '"'),
    ("&raquo;", '>'), ("&reg;", 'R'), ("&sect;", 'S'), ("&shy;", '-'), ("&sup2;", '2'), ("&sup3;", '3'),
    ("&times;", 'x'), ("&trade;", 'T'), ("&uml;", '"'), ("&yen;", 'Y'), ("&#39;", '\'')
    ]
  }

  // The first of the entities from k on that the text at i starts with.
  function NamedFrom(html: string, i: nat, k: nat): (r: (char, nat))
    requires i < |html| && k <= |Entities()|
    ensures 1 <= r.1 && i + r.1 <= |html|
    decreases |Entities()| - k
  {
    if k == |Entities()| then (html[i], 1)
    else if Entities()[k].0 != "" && Matches(html, i, |html|, Entities()[k].0) then (Entities()[k].1, |Entities()[k].0|)
    else NamedFrom(html, i, k + 1)
  }

  // What the "&" at i stands for, and how much of the text is consumed.
  function Entity(html: string, i: nat): (r: (char, nat))
    requires i < |html|
    ensures 1 <= r.1 && i + r.1 <= |html|
  {
    if i + 1 < |html| && html[i + 1] == '#' then Numeric(html, i + 2) else NamedFrom(html, i, 0)
  }

  // decode_entity: the named entities in the order of the source's tests.
  method DecodeEntity(html: string, i: nat) returns (c: char, consumed: nat)
    requires i < |html|
    ensures (c, consumed) == Entity(html, i)
  {
    hide Numeric, Matches;
    if i + 1 < |html| && html[i + 1] == '#' {
      c, consumed := DecodeNumeric(html, i + 2);
      return;
    }
    var table := [
      ("&amp;", '&'), ("&apos;", '\''), ("&bull;", '*'), ("&cent;", 'c'), ("&copy;", '('), ("&deg;", 'o'),
      ("&divide;", '/'), ("&euro;", 'E'), ("&frac12;", '?'), ("&frac14;", '?'), ("&gt;", '>'), ("&laquo;", '<'),
      ("&lt;", '<'), ("&mdash;", '-'), ("&micro;", 'u'), ("&middot;", '.'), ("&minus;", '-'), ("&nbsp;", ' '),
      ("&ndash;", '-'), ("&not;", '!'), ("&para;", 'P'), ("&plusmn;", '+'), ("&pound;", 'L'), ("&quot;", '"'),
      ("&raquo;", '>'), ("&reg;", 'R'), ("&sect;", 'S'), ("&shy;", '-'), ("&sup2;", '2'), ("&sup3;", '3'),
      ("&times;", 'x'), ("&trade;", 'T'), ("&uml;", '"'), ("&yen;", 'Y'), ("&#39;", '\'')
    ];
    assert table == Entities();
    var k := 0;
    while k < |table|
      invariant 0 <= k <= |table| && NamedFrom(html, i, 0) == NamedFrom(html, i, k)
    {
      var m := MatchesCi(html, i, |html|, table[k].0);
      if m { return table[k].1, |table[k].0|; }
      k := k + 1;
    }
    return html[i], 1;
  }

  // ---------- Attributes ----------

  // The first position from i on, up to end, that is no white space.
  function SkipWs(html: string, i: nat, end: nat): (r: nat)
    requires end <= |html|
    ensures i <= r && (i <= end ==> r <= end)
    decreases end - i
  {
    if i < end && IsWs(html[i]) then SkipWs(html, i + 1, end) else i
  }

  predicate EndsName(c: char) { c == '=' || IsWs(c) || c == '/' || c == '>' }

  function AttrNameEnd(html: string, i: nat, end: nat): (r: nat)
    requires end <= |html|
    ensures i <= r && (i <= end ==> r <= end)
    decreases end - i
  {
    if i < end && !EndsName(html[i]) then AttrNameEnd(html, i + 1, end) else i
  }

  // A value ends at its quote, or, without quotes, at white space or ">".
  predicate EndsValue(c: char, quoted: bool, quote: char) {
    if quoted then c == quote else IsWs(c) || c == '>'
  }

  function ValueEnd(html: string, i: nat, end: nat, quoted: bool, quote: char): (r: nat)
    requires end <= |html|
    ensures i <= r && (i <= end ==> r <= end)
    decreases end - i
  {
    if i < end && !EndsValue(html[i], quoted, quote) then ValueEnd(html, i + 1, end, quoted, quote) else i
  }

  datatype Found = No | Yes(value: string)

  // The value behind an "=" at c, and where the search goes on.
  function Value(html: string, c: nat, end: nat): (r: (string, nat))
    requires c < end <= |html|
    ensures c < r.1 <= end
  {
    var d := SkipWs(html, c + 1, end);
    var quoted := d < end && (html[d] == '"' || html[d] == '\'');
    var quote := if quoted then html[d] else ' ';
    var v := if quoted then d + 1 else d;
    var e := ValueEnd(html, v, end, quoted, quote);
    (html[v..e], if quoted && e < end then e + 1 else e)
  }

  // The value of the first attribute of that name between i and end.
  function Attribute(html: string, i: nat, end: nat, name: string): (r: Found)
    requires i <= end <= |html|
    decreases end - i
  {
    if i == end then No
    else
      var a := SkipWs(html, i, end);
      var b := AttrNameEnd(html, a, end);
      var c := SkipWs(html, b, end);
      if c < end && html[c] == '=' then
        var (v, f) := Value(html, c, end);
        if b - a == |name| && Matches(html, a, b, name) then Yes(v) else AttributeFrom(html, a, f, end, name)
      else AttributeFrom(html, a, c, end, name)
  }

  // The search goes on at x: not behind a "/", and one further if nothing was read from a on.
  function AttributeFrom(html: string, a: nat, x: nat, end: nat, name: string): (r: Found)
    requires a <= x <= end <= |html|
    decreases end - a, 0
  {
    if x < end && html[x] == '/' then No
    else if x == a then (if x < end then Attribute(html, x + 1, end, name) else No)
    else Attribute(html, x, end, name)
  }

  function Cut(s: string, n: nat): string { if |s| > n then s[..n] else s }

  method ScanWs(html: string, start: nat, end: nat) returns (i: nat)
    requires start <= end <= |html|
    ensures i == SkipWs(html, start, end)
  {
    i := start;
    while i < end && (html[i] == ' ' || html[i] == '\t' || html[i] == '\r' || html[i] == '\n')
      invariant i <= end && SkipWs(html, start, end) == SkipWs(html, i, end)
    {
      i := i + 1;
    }
  }

  method ScanAttrName(html: string, start: nat, end: nat) returns (i: nat)
    requires start <= end <= |html|
    ensures i == AttrNameEnd(html, start, end)
  {
    i := start;
    while && i < end && html[i] != '='
          && !(html[i] == ' ' || html[i] == '\t' || html[i] == '\r' || html[i] == '\n')
          && html[i] != '/' && html[i] != '>'
      invariant i <= end && AttrNameEnd(html, start, end) == AttrNameEnd(html, i, end)
    {
      i := i + 1;
    }
  }

  // The part of find_attr behind an "=".
  method ScanValue(html: string, c: nat, end: nat) returns (start: nat, stop: nat, next: nat)
    requires c < end <= |html|
    ensures c < start <= stop <= next <= end && (html[start..stop], next) == Value(html, c, end)
  {
    var i: nat := ScanWs(html, c + 1, end);
    var quoted, quote := false, ' ';
    if i < end && (html[i] == '"' || html[i] == '\'') {
      quoted, quote := true, html[i];
      i := i + 1;
    }
    start := i;
    while && i < end
          && ((quoted && html[i] != quote) ||
              (!quoted && !(html[i] == ' ' || html[i] == '\t' || html[i] == '\r' || html[i] == '\n') && html[i] != '>'))
      invariant start <= i <= end && ValueEnd(html, start, end, quoted, quote) == ValueEnd(html, i, end, quoted, quote)
    {
      i := i + 1;
    }
    stop := i;
    next := if quoted && i < end then i + 1 else i;
  }

  // find_attr: the value, cut to what fits the caller's buffer.
  method FindAttr(html: string, tagStart: nat, tagEnd: nat, name: string, max: nat) returns (found: bool, out: string)
    requires tagStart <= tagEnd <= |html| && max >= 1
    ensures found == Attribute(html, tagStart, tagEnd, name).Yes?
    ensures found ==> out == Cut(Attribute(html, tagStart, tagEnd, name).value, max - 1)
  {
    hide SkipWs, AttrNameEnd, Value, Matches;
    var i: nat := tagStart;
    while i < tagEnd
      invariant i <= tagEnd && Attribute(html, tagStart, tagEnd, name) == Attribute(html, i, tagEnd, name)
      decreases tagEnd - i
    {
      ghost var before := i;
      i := ScanWs(html, i, tagEnd);
      var a := i;
      i := ScanAttrName(html, i, tagEnd);
      var b := i;
      i := ScanWs(html, i, tagEnd);
      if i < tagEnd && html[i] == '=' {
        var start, stop;
        start, stop, i := ScanValue(html, i, tagEnd);
        if b - a == |name| {
          var m := MatchesCi(html, a, b, name);
          if m {
            var length: nat := stop - start;
            if length > max - 1 { length := max - 1; }
            return true, html[start..start + length];
          }
        }
      }
      if i < tagEnd && html[i] == '/' { break; }
      if i == a {
        if i == tagEnd { break; }
        i := i + 1;
      }
    }
    return false, "";
  }

  // parse_int, without the wrap-around of a 32-bit value.
  function NumberOf(s: string): int {
    if s != "" && s[0] == '-' then -DigitsOf(s[1..], 0) else DigitsOf(s, 0)
  }

  function DigitsOf(s: string, v: int): int {
    if s != "" && '0' <= s[0] <= '9' then DigitsOf(s[1..], v * 10 + (s[0] as int - '0' as int)) else v
  }

  method ParseInt(s: string) returns (r: int)
    ensures r == NumberOf(s)
  {
    var i, neg, val := 0, false, 0;
    if |s| > 0 && s[0] == '-' { neg, i := true, 1; }
    ghost var from := i;
    assert s[0..] == s;
    while i < |s| && '0' <= s[i] <= '9'
      invariant from <= i <= |s| && DigitsOf(s[from..], 0) == DigitsOf(s[i..], val)
    {
      assert s[i..][1..] == s[i + 1..];
      val := val * 10 + (s[i] as int - '0' as int);
      i := i + 1;
    }
    return if neg then -val else val;
  }

  // A number printed in decimal digits is read back.
  lemma {:induction false} DigitsAre(s: string, v: nat)
    requires AllDigits(s, false)
    ensures DigitsOf(s, v) == ValueOf(s, false, v)
    decreases |s|
  {
    if s != "" {
      assert '0' <= s[0] <= '9';
      DigitsAre(s[1..], v * 10 + Digit(s[0], false));
    }
  }

  lemma DecimalNumber(v: nat)
    ensures NumberOf(Decimal(v)) == v
  {
    hide Decimal;
    DecimalValue(v);
    DigitsAre(Decimal(v), 0);
    assert Digit(Decimal(v)[0], false) >= 0;
  }
}
