/** The texts `JSON.parse` accepts, and the texts `JSON.stringify` writes.
    `IsJsonText` is the JSON-text grammar of RFC 8259 (sections 2 to 7),
    recognised by a scanner that reads one value from a position and reports
    where it ends. `Serialize` is `JSON.stringify` on the values of
    `JsonData`, and `SerializeIsJsonText` shows that the parser accepts
    everything the serialiser writes. */
module JsonText {
  import opened Wrappers
  import opened JsonData
  import Decimal

  // ---------------------------------------------------------------- scanning

  /** Insignificant whitespace (section 2): space, tab, line feed, carriage return. */
  predicate IsWs(c: char) {
    c == ' ' || c == '\t' || c == '\n' || c == '\r'
  }

  /** The position of the first non-whitespace character at or after `i`. */
  function SkipWs(s: string, i: nat): (j: nat)
    requires i <= |s|
    ensures i <= j <= |s|
    decreases |s| - i
  {
    if i < |s| && IsWs(s[i]) then SkipWs(s, i + 1) else i
  }

  /** `SkipWs` passes over whitespace only and stops at the first other
      character. */
  lemma {:induction false} SkipWsSkipsWhitespace(s: string, i: nat)
    requires i <= |s|
    ensures forall k | i <= k < SkipWs(s, i) :: IsWs(s[k])
    ensures SkipWs(s, i) < |s| ==> !IsWs(s[SkipWs(s, i)])
    decreases |s| - i
  {
    if i < |s| && IsWs(s[i]) {
      SkipWsSkipsWhitespace(s, i + 1);
    }
  }

  /** `lit` is spelled out in `s` from position `i`. */
  predicate At(s: string, i: nat, lit: string) {
    i + |lit| <= |s| && forall k | 0 <= k < |lit| :: s[i + k] == lit[k]
  }

  /** The end of the run of digits that starts at `i`. */
  function DigitsEnd(s: string, i: nat): (j: nat)
    requires i <= |s|
    ensures i <= j <= |s|
    decreases |s| - i
  {
    if i < |s| && Decimal.IsDigit(s[i]) then DigitsEnd(s, i + 1) else i
  }

  /** An optional fraction `.` 1*DIGIT at `i`; `None` for a dot without digits. */
  function Fraction(s: string, i: nat): (r: Option<nat>)
    requires i <= |s|
    ensures r.Some? ==> i <= r.value <= |s|
  {
    if i < |s| && s[i] == '.' then
      var j := DigitsEnd(s, i + 1);
      if j == i + 1 then None else Some(j)
    else Some(i)
  }

  /** An optional exponent `e` [sign] 1*DIGIT at `i`; `None` for one without digits. */
  function Exponent(s: string, i: nat): (r: Option<nat>)
    requires i <= |s|
    ensures r.Some? ==> i <= r.value <= |s|
  {
    if i < |s| && (s[i] == 'e' || s[i] == 'E') then
      var a := if i + 1 < |s| && (s[i + 1] == '+' || s[i + 1] == '-') then i + 2 else i + 1;
      var j := DigitsEnd(s, a);
      if j == a then None else Some(j)
    else Some(i)
  }

  /** A number (section 6) starting at `i`: an optional minus sign, an integer
      part that is `0` or does not start with `0`, then the optional fraction
      and exponent. A digit right after a leading `0` is not part of the number. */
  function Number(s: string, i: nat): (r: Option<nat>)
    requires i <= |s|
    ensures r.Some? ==> i < r.value <= |s|
  {
    if i < |s| && s[i] == '-' then Unsigned(s, i + 1) else Unsigned(s, i)
  }

  /** A number without its sign, starting at `a`. */
  function Unsigned(s: string, a: nat): (r: Option<nat>)
    requires a <= |s|
    ensures r.Some? ==> a < r.value <= |s|
  {
    if a == |s| || !Decimal.IsDigit(s[a]) then None
    else
      var b := if s[a] == '0' then a + 1 else DigitsEnd(s, a);
      match Fraction(s, b)
      case None => None
      case Some(c) => Exponent(s, c)
  }

  predicate IsHexDigit(c: char) {
    Decimal.IsDigit(c) || 'a' <= c <= 'f' || 'A' <= c <= 'F'
  }

  /** The characters that may follow a backslash, apart from `u`. */
  predicate IsShortEscape(c: char) {
    c == '"' || c == '\\' || c == '/' || c == 'b' || c == 'f' || c == 'n' || c == 'r' || c == 't'
  }

  /** A `\u` escape with its four hexadecimal digits at `i`. */
  predicate IsUnicodeEscape(s: string, i: nat) {
    i + 6 <= |s| && s[i] == '\\' && s[i + 1] == 'u'
    && IsHexDigit(s[i + 2]) && IsHexDigit(s[i + 3]) && IsHexDigit(s[i + 4]) && IsHexDigit(s[i + 5])
  }

  /** The rest of a string (section 7) from `i`, just after its opening
      quotation mark, up to and including the closing one. Control characters
      must be escaped; every other character stands for itself. */
  function StringRest(s: string, i: nat): (r: Option<nat>)
    requires i <= |s|
    ensures r.Some? ==> i < r.value <= |s|
    decreases |s| - i
  {
    if i == |s| then None
    else if s[i] == '"' then Some(i + 1)
    else if s[i] == '\\' then
      if i + 1 < |s| && IsShortEscape(s[i + 1]) then StringRest(s, i + 2)
      else if IsUnicodeEscape(s, i) then StringRest(s, i + 6)
      else None
    else if s[i] < ' ' then None
    else StringRest(s, i + 1)
  }

  /** The literal `lit` at `i`. */
  function Literal(s: string, i: nat, lit: string): (r: Option<nat>)
    requires i <= |s| && |lit| > 0
    ensures r.Some? ==> i < r.value <= |s|
  {
    if i + |lit| <= |s| && s[i..i + |lit|] == lit then Some(i + |lit|) else None
  }

  /** One value (section 3) starting exactly at `i`: where it ends, or `None`. */
  function Value(s: string, i: nat): (r: Option<nat>)
    requires i <= |s|
    ensures r.Some? ==> i < r.value <= |s|
    decreases |s| - i, 0
  {
    if i == |s| then None
    else if s[i] == '{' then Members(s, SkipWs(s, i + 1), true)
    else if s[i] == '[' then Elements(s, SkipWs(s, i + 1), true)
    else if s[i] == '"' then StringRest(s, i + 1)
    else if s[i] == 't' then Literal(s, i, "true")
    else if s[i] == 'f' then Literal(s, i, "false")
    else if s[i] == 'n' then Literal(s, i, "null")
    else Number(s, i)
  }

  /** The elements of an array (section 5) from `i`, past the opening bracket
      and any whitespace, up to and including the closing bracket. `first` is
      whether no element has been read yet, the only place `]` may come. */
  function Elements(s: string, i: nat, first: bool): (r: Option<nat>)
    requires i <= |s|
    ensures r.Some? ==> i < r.value <= |s|
    decreases |s| - i, 1
  {
    if first && i < |s| && s[i] == ']' then Some(i + 1)
    else match Value(s, i)
      case None => None
      case Some(e) =>
        var j := SkipWs(s, e);
        if j < |s| && s[j] == ',' then Elements(s, SkipWs(s, j + 1), false)
        else if j < |s| && s[j] == ']' then Some(j + 1)
        else None
  }

  /** One member of an object (section 4) from `i`: a string, a colon with
      whitespace around it, and a value; the position just after the value. */
  function Member(s: string, i: nat): (r: Option<nat>)
    requires i <= |s|
    ensures r.Some? ==> i < r.value <= |s|
    decreases |s| - i, 1
  {
    if i == |s| || s[i] != '"' then None
    else match StringRest(s, i + 1)
      case None => None
      case Some(e) =>
        var c := SkipWs(s, e);
        if c == |s| || s[c] != ':' then None
        else Value(s, SkipWs(s, c + 1))
  }

  /** The members of an object from `i`, past the opening brace and any
      whitespace, up to and including the closing brace, with whitespace
      around the commas. */
  function Members(s: string, i: nat, first: bool): (r: Option<nat>)
    requires i <= |s|
    ensures r.Some? ==> i < r.value <= |s|
    decreases |s| - i, 2
  {
    if first && i < |s| && s[i] == '}' then Some(i + 1)
    else match Member(s, i)
      case None => None
      case Some(v) =>
        var j := SkipWs(s, v);
        if j < |s| && s[j] == ',' then Members(s, SkipWs(s, j + 1), false)
        else if j < |s| && s[j] == '}' then Some(j + 1)
        else None
  }

  /** A JSON text (section 2): one value with optional whitespace around it.
      These are exactly the strings `JSON.parse` does not throw on. */
  predicate IsJsonText(s: string) {
    match Value(s, SkipWs(s, 0))
    case None => false
    case Some(e) => SkipWs(s, e) == |s|
  }

  /** The text of a JSON value. */
  type JsonString = s: string | IsJsonText(s) witness "null"

  // ---------------------------------------------------------------- serialising

  function HexChar(d: nat): (c: char)
    requires d < 16
    ensures IsHexDigit(c)
  {
    if d < 10 then Decimal.DigitChar(d) else (d - 10 + 'a' as int) as char
  }

  /** How `JSON.stringify` writes one character inside a string: the quotation
      mark, the backslash and the five named control characters get their
      short escapes, the other control characters a `\u00XX` escape with
      lower-case digits, and everything else stands for itself. */
  function EscapeChar(c: char): (t: string)
    ensures |t| > 0
  {
    if c == '"' then "\\\""
    else if c == '\\' then "\\\\"
    else if c == '\U{0008}' then "\\b"
    else if c == '\U{000C}' then "\\f"
    else if c == '\n' then "\\n"
    else if c == '\r' then "\\r"
    else if c == '\t' then "\\t"
    else if c < ' ' then "\\u00" + [HexChar(c as int / 16), HexChar(c as int % 16)]
    else [c]
  }

  function Escape(s: string): string
    decreases |s|
  {
    if |s| == 0 then "" else EscapeChar(s[0]) + Escape(s[1..])
  }

  /** `JSON.stringify` of a string. */
  function Quote(s: string): string {
    "\"" + (Escape(s) + "\"")
  }

  /** `JSON.stringify(value)`: no whitespace, object members in their order. */
  function Serialize(j: Json): (t: string)
    ensures |t| > 0
    decreases j
  {
    match j
    case JNull => "null"
    case JBool(b) => if b then "true" else "false"
    case JNumber(n) => Decimal.IntToString(n)
    case JString(s) => Quote(s)
    case JArray(items) => "[" + (SerializeItems(items) + "]")
    case JObject(fields) => "{" + (SerializeFields(fields) + "}")
  }

  /** The elements of an array, separated by commas. */
  function SerializeItems(items: seq<Json>): string
    decreases items
  {
    if |items| == 0 then ""
    else if |items| == 1 then Serialize(items[0])
    else Serialize(items[0]) + ("," + SerializeItems(items[1..]))
  }

  /** One member of an object: the quoted name, a colon and the value. */
  function SerializeMember(field: (string, Json)): string
    decreases field
  {
    Quote(field.0) + (":" + Serialize(field.1))
  }

  /** The members of an object, separated by commas. */
  function SerializeFields(fields: seq<(string, Json)>): string
    decreases fields
  {
    if |fields| == 0 then ""
    else if |fields| == 1 then SerializeMember(fields[0])
    else SerializeMember(fields[0]) + ("," + SerializeFields(fields[1..]))
  }

  // ---------------------------------------------------------------- the parser accepts what is written

  /** A position where a value written by `Serialize` is known to end: the end
      of the text, a comma, or a closing bracket or brace. */
  predicate Delimited(s: string, k: nat) {
    k == |s| || (k < |s| && (s[k] == ',' || s[k] == ']' || s[k] == '}'))
  }

  /** `a + b` spelled out at `i` is `a` there, followed by `b`. */
  lemma AtConcat(s: string, i: nat, a: string, b: string)
    requires At(s, i, a + b)
    ensures At(s, i, a) && At(s, i + |a|, b)
  {
    forall k | 0 <= k < |a|
      ensures s[i + k] == a[k]
    {
      assert (a + b)[k] == a[k];
    }
    forall k | 0 <= k < |b|
      ensures s[i + |a| + k] == b[k]
    {
      assert (a + b)[|a| + k] == b[k];
    }
  }

  /** The first character of a spelled-out text. */
  lemma AtFirst(s: string, i: nat, t: string)
    requires At(s, i, t) && |t| > 0
    ensures i < |s| && s[i] == t[0]
  {
    assert s[i + 0] == t[0];
  }

  /** Each scanning step on its own. */
  lemma SkipNoWs(s: string, k: nat)
    requires k < |s| && !IsWs(s[k])
    ensures SkipWs(s, k) == k
  {
  }

  lemma ShortEscapeStep(s: string, i: nat)
    requires i + 1 < |s| && s[i] == '\\' && IsShortEscape(s[i + 1])
    ensures StringRest(s, i) == StringRest(s, i + 2)
  {
  }

  lemma UnicodeEscapeStep(s: string, i: nat)
    requires IsUnicodeEscape(s, i)
    ensures StringRest(s, i) == StringRest(s, i + 6)
  {
  }

  lemma PlainCharStep(s: string, i: nat)
    requires i < |s| && s[i] != '"' && s[i] != '\\' && s[i] >= ' '
    ensures StringRest(s, i) == StringRest(s, i + 1)
  {
  }

  lemma StringValueStep(s: string, i: nat)
    requires i < |s| && s[i] == '"'
    ensures Value(s, i) == StringRest(s, i + 1)
  {
  }

  lemma NumberValueStep(s: string, i: nat)
    requires i < |s| && Decimal.IsNumberChar(s[i])
    ensures Value(s, i) == Number(s, i)
  {
  }

  lemma ArrayValueStep(s: string, i: nat)
    requires i + 1 < |s| && s[i] == '[' && !IsWs(s[i + 1])
    ensures Value(s, i) == Elements(s, i + 1, true)
  {
    SkipNoWs(s, i + 1);
  }

  lemma ObjectValueStep(s: string, i: nat)
    requires i + 1 < |s| && s[i] == '{' && !IsWs(s[i + 1])
    ensures Value(s, i) == Members(s, i + 1, true)
  {
    SkipNoWs(s, i + 1);
  }

  lemma EmptyArrayStep(s: string, i: nat)
    requires i + 1 < |s| && s[i] == '[' && s[i + 1] == ']'
    ensures Value(s, i) == Some(i + 2)
  {
    SkipNoWs(s, i + 1);
  }

  lemma EmptyObjectStep(s: string, i: nat)
    requires i + 1 < |s| && s[i] == '{' && s[i + 1] == '}'
    ensures Value(s, i) == Some(i + 2)
  {
    SkipNoWs(s, i + 1);
  }

  lemma LastElementStep(s: string, i: nat, first: bool, e: nat)
    requires i < |s| && s[i] != ']' && Value(s, i) == Some(e) && e < |s| && s[e] == ']'
    ensures Elements(s, i, first) == Some(e + 1)
  {
    SkipNoWs(s, e);
  }

  lemma NextElementStep(s: string, i: nat, first: bool, e: nat)
    requires i < |s| && s[i] != ']' && Value(s, i) == Some(e)
    requires e + 1 < |s| && s[e] == ',' && !IsWs(s[e + 1])
    ensures Elements(s, i, first) == Elements(s, e + 1, false)
  {
    SkipNoWs(s, e);
    SkipNoWs(s, e + 1);
  }

  lemma MemberStep(s: string, i: nat, c: nat)
    requires i < |s| && s[i] == '"' && StringRest(s, i + 1) == Some(c)
    requires c + 1 < |s| && s[c] == ':' && !IsWs(s[c + 1])
    ensures Member(s, i) == Value(s, c + 1)
  {
    SkipNoWs(s, c);
    SkipNoWs(s, c + 1);
  }

  lemma LastMemberStep(s: string, i: nat, first: bool, v: nat)
    requires i < |s| && s[i] == '"' && Member(s, i) == Some(v) && v < |s| && s[v] == '}'
    ensures Members(s, i, first) == Some(v + 1)
  {
    SkipNoWs(s, v);
  }

  lemma NextMemberStep(s: string, i: nat, first: bool, v: nat)
    requires i < |s| && s[i] == '"' && Member(s, i) == Some(v)
    requires v + 1 < |s| && s[v] == ',' && !IsWs(s[v + 1])
    ensures Members(s, i, first) == Members(s, v + 1, false)
  {
    SkipNoWs(s, v);
    SkipNoWs(s, v + 1);
  }

  /** Every serialised value starts with a character that is neither
      whitespace nor punctuation that could end a value. */
  lemma SerializeFirst(j: Json)
    ensures var c := Serialize(j)[0]; !IsWs(c) && c != ',' && c != ']' && c != '}' && c != ':'
  {
    match j
    case JNumber(n) =>
      assert Decimal.IsNumberChar(Serialize(j)[0]);
    case _ =>
  }

  lemma SerializeItemsFirst(items: seq<Json>)
    requires |items| > 0
    ensures |SerializeItems(items)| > 0
    ensures var c := SerializeItems(items)[0]; !IsWs(c) && c != ',' && c != ']' && c != '}' && c != ':'
  {
    SerializeFirst(items[0]);
  }


  lemma SerializeFieldsFirst(fields: seq<(string, Json)>)
    requires |fields| > 0
    ensures |SerializeFields(fields)| > 0 && SerializeFields(fields)[0] == '"'
  {
    assert SerializeMember(fields[0])[0] == '"';
  }

  lemma SerializeItemsSplit(items: seq<Json>)
    requires |items| > 1
    ensures |SerializeItems(items)| == |Serialize(items[0])| + 1 + |SerializeItems(items[1..])|
    ensures SerializeItems(items) == Serialize(items[0]) + ("," + SerializeItems(items[1..]))
  {
  }

  lemma SerializeFieldsSplit(fields: seq<(string, Json)>)
    requires |fields| > 1
    ensures |SerializeFields(fields)| == |SerializeMember(fields[0])| + 1 + |SerializeFields(fields[1..])|
    ensures SerializeFields(fields) == SerializeMember(fields[0]) + ("," + SerializeFields(fields[1..]))
  {
  }

  /** A run of digits ending where no digit follows is read to its end. */
  lemma {:induction false} DigitsEndAt(s: string, a: nat, e: nat)
    requires a <= e <= |s|
    requires forall k | a <= k < e :: Decimal.IsDigit(s[k])
    requires e == |s| || !Decimal.IsDigit(s[e])
    ensures DigitsEnd(s, a) == e
    decreases e - a
  {
    if a < e {
      DigitsEndAt(s, a + 1, e);
    }
  }

  /** The digits of a natural number, delimited, scan as a number without
      fraction or exponent. */
  lemma NaturalAt(s: string, a: nat, n: nat)
    requires At(s, a, Decimal.NatToString(n)) && Delimited(s, a + |Decimal.NatToString(n)|)
    ensures Unsigned(s, a) == Some(a + |Decimal.NatToString(n)|)
  {
    var d := Decimal.NatToString(n);
    var e := a + |d|;
    forall k | a <= k < e
      ensures Decimal.IsDigit(s[k])
    {
      assert s[a + (k - a)] == d[k - a];
    }
    AtFirst(s, a, d);
    if d[0] != '0' {
      DigitsEndAt(s, a, e);
    }
  }

  /** A serialised integer, delimited, scans as a number. */
  lemma NumberAt(s: string, i: nat, n: int)
    requires At(s, i, Decimal.IntToString(n)) && Delimited(s, i + |Decimal.IntToString(n)|)
    ensures Number(s, i) == Some(i + |Decimal.IntToString(n)|)
  {
    var d := Decimal.NatToString(if n < 0 then -n else n);
    if n < 0 {
      AtConcat(s, i, "-", d);
      AtFirst(s, i, "-");
      NaturalAt(s, i + 1, -n);
    } else {
      AtFirst(s, i, d);
      NaturalAt(s, i, n);
    }
  }

  /** One escaped character is one step of the string scanner. */
  lemma EscapeCharStep(s: string, i: nat, c: char)
    requires At(s, i, EscapeChar(c))
    ensures StringRest(s, i) == StringRest(s, i + |EscapeChar(c)|)
  {
    var e := EscapeChar(c);
    assert s[i + 0] == e[0];
    if c == '"' || c == '\\' || c == '\U{0008}' || c == '\U{000C}' || c == '\n' || c == '\r' || c == '\t' {
      assert |e| == 2 && e[0] == '\\' && IsShortEscape(e[1]);
      assert s[i + 1] == e[1];
      ShortEscapeStep(s, i);
    } else if c < ' ' {
      assert |e| == 6 && e[0] == '\\' && e[1] == 'u' && e[2] == '0' && e[3] == '0';
      assert IsHexDigit(e[4]) && IsHexDigit(e[5]);
      assert s[i + 1] == e[1] && s[i + 2] == e[2] && s[i + 3] == e[3] && s[i + 4] == e[4] && s[i + 5] == e[5];
      UnicodeEscapeStep(s, i);
    } else {
      PlainCharStep(s, i);
    }
  }

  lemma EscapeSplit(x: string)
    requires |x| > 0
    ensures Escape(x) == EscapeChar(x[0]) + Escape(x[1..])
    ensures |Escape(x)| == |EscapeChar(x[0])| + |Escape(x[1..])|
  {
  }

  /** The scanner reads an escaped string up to its closing quotation mark. */
  lemma {:induction false} StringRestAt(s: string, i: nat, x: string)
    requires At(s, i, Escape(x))
    requires i + |Escape(x)| < |s| && s[i + |Escape(x)|] == '"'
    ensures StringRest(s, i) == Some(i + |Escape(x)| + 1)
    decreases |x|
  {
    if |x| > 0 {
      var e := EscapeChar(x[0]);
      var rest := Escape(x[1..]);
      var j := i + |e|;
      EscapeSplit(x);
      assert j + |rest| == i + |Escape(x)|;
      AtConcat(s, i, e, rest);
      StringRestAt(s, j, x[1..]);
      EscapeCharStep(s, i, x[0]);
    }
  }

  /** A quoted string scans as a string. */
  lemma QuoteAt(s: string, i: nat, x: string)
    requires At(s, i, Quote(x))
    ensures i < |s| && s[i] == '"'
    ensures StringRest(s, i + 1) == Some(i + |Quote(x)|)
  {
    var e := Escape(x);
    var j := i + 1;
    var k := j + |e|;
    AtConcat(s, i, "\"", e + "\"");
    AtConcat(s, j, e, "\"");
    AtFirst(s, i, "\"");
    AtFirst(s, k, "\"");
    StringRestAt(s, j, x);
  }

  /** A serialised value, delimited, scans as one value ending right there. */
  lemma {:induction false} ValueAt(s: string, i: nat, j: Json)
    requires At(s, i, Serialize(j)) && Delimited(s, i + |Serialize(j)|)
    ensures Value(s, i) == Some(i + |Serialize(j)|)
    decreases j, 2
  {
    match j
    case JNull => LiteralAt(s, i, "null");
    case JBool(b) => LiteralAt(s, i, if b then "true" else "false");
    case JNumber(n) => NumberValueAt(s, i, n);
    case JString(x) => StringValueAt(s, i, x);
    case JArray(items) => ArrayAt(s, i, items);
    case JObject(fields) => ObjectAt(s, i, fields);
  }

  lemma LiteralAt(s: string, i: nat, lit: string)
    requires lit == "null" || lit == "true" || lit == "false"
    requires At(s, i, lit)
    ensures Value(s, i) == Some(i + |lit|)
  {
    AtFirst(s, i, lit);
    assert s[i..i + |lit|] == lit;
  }

  lemma NumberValueAt(s: string, i: nat, n: int)
    requires At(s, i, Decimal.IntToString(n)) && Delimited(s, i + |Decimal.IntToString(n)|)
    ensures Value(s, i) == Some(i + |Decimal.IntToString(n)|)
  {
    var t := Decimal.IntToString(n);
    AtFirst(s, i, t);
    assert Decimal.IsNumberChar(t[0]);
    NumberValueStep(s, i);
    NumberAt(s, i, n);
  }

  lemma StringValueAt(s: string, i: nat, x: string)
    requires At(s, i, Quote(x))
    ensures Value(s, i) == Some(i + |Quote(x)|)
  {
    QuoteAt(s, i, x);
    StringValueStep(s, i);
  }

  lemma {:induction false} ArrayAt(s: string, i: nat, items: seq<Json>)
    requires At(s, i, Serialize(JArray(items)))
    ensures Value(s, i) == Some(i + |Serialize(JArray(items))|)
    decreases items, 2
  {
    var inner := SerializeItems(items);
    var j := i + 1;
    var k := j + |inner|;
    assert Serialize(JArray(items)) == "[" + (inner + "]");
    AtConcat(s, i, "[", inner + "]");
    AtConcat(s, j, inner, "]");
    AtFirst(s, i, "[");
    AtFirst(s, k, "]");
    if |items| == 0 {
      EmptyArrayStep(s, i);
    } else {
      SerializeItemsFirst(items);
      AtFirst(s, j, inner);
      ArrayValueStep(s, i);
      ElementsAt(s, j, items, true);
    }
  }

  lemma {:induction false} ObjectAt(s: string, i: nat, fields: seq<(string, Json)>)
    requires At(s, i, Serialize(JObject(fields)))
    ensures Value(s, i) == Some(i + |Serialize(JObject(fields))|)
    decreases fields, 2
  {
    var inner := SerializeFields(fields);
    var j := i + 1;
    var k := j + |inner|;
    assert Serialize(JObject(fields)) == "{" + (inner + "}");
    AtConcat(s, i, "{", inner + "}");
    AtConcat(s, j, inner, "}");
    AtFirst(s, i, "{");
    AtFirst(s, k, "}");
    if |fields| == 0 {
      EmptyObjectStep(s, i);
    } else {
      SerializeFieldsFirst(fields);
      AtFirst(s, j, inner);
      ObjectValueStep(s, i);
      MembersAt(s, j, fields, true);
    }
  }

  /** Serialised elements followed by the closing bracket scan as the rest of
      an array. */
  lemma {:induction false} ElementsAt(s: string, i: nat, items: seq<Json>, first: bool)
    requires |items| > 0 && At(s, i, SerializeItems(items))
    requires i + |SerializeItems(items)| < |s| && s[i + |SerializeItems(items)|] == ']'
    ensures Elements(s, i, first) == Some(i + |SerializeItems(items)| + 1)
    decreases items, 1
  {
    if |items| == 1 {
      var e := i + |Serialize(items[0])|;
      SerializeFirst(items[0]);
      AtFirst(s, i, Serialize(items[0]));
      ValueAt(s, i, items[0]);
      LastElementStep(s, i, first, e);
    } else {
      MoreElementsAt(s, i, items, first);
    }
  }

  lemma {:induction false} MoreElementsAt(s: string, i: nat, items: seq<Json>, first: bool)
    requires |items| > 1 && At(s, i, SerializeItems(items))
    requires i + |SerializeItems(items)| < |s| && s[i + |SerializeItems(items)|] == ']'
    ensures Elements(s, i, first) == Some(i + |SerializeItems(items)| + 1)
    decreases items, 0
  {
    var w := i + |Serialize(items[0])| + 1;
    SplitItemsAt(s, i, items);
    ElementThenComma(s, i, items[0], first);
    ElementsAt(s, w, items[1..], false);
  }

  /** Where the first element, its comma and the remaining elements stand. */
  lemma SplitItemsAt(s: string, i: nat, items: seq<Json>)
    requires |items| > 1 && At(s, i, SerializeItems(items))
    ensures var e := i + |Serialize(items[0])|;
      && At(s, i, Serialize(items[0]))
      && e + 1 < |s| && s[e] == ',' && !IsWs(s[e + 1])
      && At(s, e + 1, SerializeItems(items[1..]))
      && e + 1 + |SerializeItems(items[1..])| == i + |SerializeItems(items)|
  {
    var v := Serialize(items[0]);
    var rest := SerializeItems(items[1..]);
    var e := i + |v|;
    var w := e + 1;
    SerializeItemsSplit(items);
    AtConcat(s, i, v, "," + rest);
    AtConcat(s, e, ",", rest);
    SerializeItemsFirst(items[1..]);
    AtFirst(s, e, ",");
    AtFirst(s, w, rest);
  }

  /** A serialised element followed by a comma and more elements. */
  lemma {:induction false} ElementThenComma(s: string, i: nat, item: Json, first: bool)
    requires At(s, i, Serialize(item))
    requires var e := i + |Serialize(item)|; e + 1 < |s| && s[e] == ',' && !IsWs(s[e + 1])
    ensures Elements(s, i, first) == Elements(s, i + |Serialize(item)| + 1, false)
    decreases item, 3
  {
    var v := Serialize(item);
    var e := i + |v|;
    SerializeFirst(item);
    AtFirst(s, i, v);
    ValueAt(s, i, item);
    NextElementStep(s, i, first, e);
  }

  /** A serialised member, delimited, scans as one member. */
  lemma {:induction false} MemberAt(s: string, i: nat, field: (string, Json))
    requires At(s, i, SerializeMember(field)) && Delimited(s, i + |SerializeMember(field)|)
    ensures Member(s, i) == Some(i + |SerializeMember(field)|)
    decreases field, 0
  {
    var c := i + |Quote(field.0)|;
    var d := c + 1;
    SplitMemberAt(s, i, field);
    ValueAt(s, d, field.1);
    MemberStep(s, i, c);
  }

  /** Where the name, the colon and the value of a serialised member stand. */
  lemma SplitMemberAt(s: string, i: nat, field: (string, Json))
    requires At(s, i, SerializeMember(field))
    ensures var c := i + |Quote(field.0)|;
      && i < |s| && s[i] == '"' && StringRest(s, i + 1) == Some(c)
      && c + 1 < |s| && s[c] == ':' && !IsWs(s[c + 1])
      && At(s, c + 1, Serialize(field.1))
      && c + 1 + |Serialize(field.1)| == i + |SerializeMember(field)|
  {
    var q := Quote(field.0);
    var v := Serialize(field.1);
    var c := i + |q|;
    var d := c + 1;
    AtConcat(s, i, q, ":" + v);
    QuoteAt(s, i, field.0);
    AtConcat(s, c, ":", v);
    AtFirst(s, c, ":");
    AtFirst(s, d, v);
    SerializeFirst(field.1);
  }

  /** Serialised members followed by the closing brace scan as the rest of an
      object. */
  lemma {:induction false} MembersAt(s: string, i: nat, fields: seq<(string, Json)>, first: bool)
    requires |fields| > 0 && At(s, i, SerializeFields(fields))
    requires i + |SerializeFields(fields)| < |s| && s[i + |SerializeFields(fields)|] == '}'
    ensures Members(s, i, first) == Some(i + |SerializeFields(fields)| + 1)
    decreases fields, 1
  {
    if |fields| == 1 {
      var m := SerializeMember(fields[0]);
      var v := i + |m|;
      SerializeFieldsFirst(fields);
      AtFirst(s, i, m);
      MemberAt(s, i, fields[0]);
      LastMemberStep(s, i, first, v);
    } else {
      MoreMembersAt(s, i, fields, first);
    }
  }

  lemma {:induction false} MoreMembersAt(s: string, i: nat, fields: seq<(string, Json)>, first: bool)
    requires |fields| > 1 && At(s, i, SerializeFields(fields))
    requires i + |SerializeFields(fields)| < |s| && s[i + |SerializeFields(fields)|] == '}'
    ensures Members(s, i, first) == Some(i + |SerializeFields(fields)| + 1)
    decreases fields, 0
  {
    var m := SerializeMember(fields[0]);
    var rest := SerializeFields(fields[1..]);
    var v := i + |m|;
    var w := v + 1;
    SerializeFieldsSplit(fields);
    AtConcat(s, i, m, "," + rest);
    AtConcat(s, v, ",", rest);
    SerializeFieldsFirst(fields[1..]);
    AtFirst(s, v, ",");
    AtFirst(s, w, rest);
    MemberThenComma(s, i, fields[0], first);
    MembersAt(s, w, fields[1..], false);
  }

  /** A serialised member followed by a comma and more members. */
  lemma {:induction false} MemberThenComma(s: string, i: nat, field: (string, Json), first: bool)
    requires At(s, i, SerializeMember(field))
    requires var v := i + |SerializeMember(field)|; v + 1 < |s| && s[v] == ',' && s[v + 1] == '"'
    ensures Members(s, i, first) == Members(s, i + |SerializeMember(field)| + 1, false)
    decreases field, 1
  {
    var m := SerializeMember(field);
    var v := i + |m|;
    AtFirst(s, i, m);
    MemberAt(s, i, field);
    NextMemberStep(s, i, first, v);
  }

  /** `JSON.parse` accepts everything `JSON.stringify` writes. */
  lemma SerializeIsJsonText(j: Json)
    ensures IsJsonText(Serialize(j))
  {
    var t := Serialize(j);
    SerializeFirst(j);
    SkipNoWs(t, 0);
    ValueAt(t, 0, j);
  }
}
