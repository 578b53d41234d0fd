/** JSON values, the text a serializer prints for them, and a parser that undoes it. */
module Json {
  /** Objects keep their fields in the order the program built them. */
  datatype Json =
    | Null
    | Bool(b: bool)
    | Num(n: int)
    | Str(s: string)
    | Arr(items: seq<Json>)
    | Obj(fields: seq<Field>)

  datatype Field = Field(key: string, value: Json)

  // ---- printing ----

  function DigitChar(d: nat): char
    requires d < 10
  {
    ('0' as int + d) as char
  }

  function Digits(n: nat): (s: string)
    ensures |s| > 0
  {
    if n < 10 then [DigitChar(n)] else Digits(n / 10) + [DigitChar(n % 10)]
  }

  function PrintInt(n: int): string {
    if n < 0 then "-" + Digits(-n) else Digits(n)
  }

  function HexChar(d: nat): char
    requires d < 16
  {
    if d < 10 then ('0' as int + d) as char else ('a' as int + d - 10) as char
  }

  /** The escapes of section 7 of RFC 8259 that the serializers use; everything else is printed as it is. */
  function EscapeChar(c: char): (s: string)
    ensures |s| > 0
  {
    if c == '\"' then "\\\""
    else if c == '\\' then "\\\\"
    else if c as int == 8 then "\\b"
    else if c as int == 9 then "\\t"
    else if c as int == 10 then "\\n"
    else if c as int == 12 then "\\f"
    else if c as int == 13 then "\\r"
    else if c as int < 32 then "\\u00" + [HexChar(c as int / 16), HexChar(c as int % 16)]
    else [c]
  }

  function Escape(s: string): string {
    if s == "" then "" else EscapeChar(s[0]) + Escape(s[1..])
  }

  function Quote(s: string): string {
    "\"" + Escape(s) + "\""
  }

  function Print(v: Json): string
    decreases v
  {
    match v
    case Null => "null"
    case Bool(b) => if b then "true" else "false"
    case Num(n) => PrintInt(n)
    case Str(s) => Quote(s)
    case Arr(items) => "[" + PrintItems(items) + "]"
    case Obj(fields) => "{" + PrintFields(fields) + "}"
  }

  function PrintItems(items: seq<Json>): string
    decreases items
  {
    if items == [] then ""
    else Print(items[0]) + (if |items| == 1 then "" else "," + PrintItems(items[1..]))
  }

  function PrintField(f: Field): string
    decreases f
  {
    Quote(f.key) + ":" + Print(f.value)
  }

  function PrintFields(fields: seq<Field>): string
    decreases fields
  {
    if fields == [] then ""
    else PrintField(fields[0]) + (if |fields| == 1 then "" else "," + PrintFields(fields[1..]))
  }

  // ---- parsing ----

  datatype Parsed<+T> = Fail | Got(value: T, rest: string)

  predicate IsDigit(c: char) {
    '0' <= c <= '9'
  }

  predicate StartsWithDigit(s: string) {
    s != "" && IsDigit(s[0])
  }

  /** Reads digits as long as there are any; `sofar` is the number read already. */
  function ParseDigits(sofar: nat, s: string): (nat, string)
    decreases |s|
  {
    if StartsWithDigit(s) then ParseDigits(sofar * 10 + (s[0] as int - '0' as int), s[1..]) else (sofar, s)
  }

  function ParseNat(s: string): Parsed<nat> {
    if StartsWithDigit(s) then var (n, rest) := ParseDigits(0, s); Got(n, rest) else Fail
  }

  function ParseInt(s: string): Parsed<int> {
    if s != "" && s[0] == '-' then
      match ParseNat(s[1..])
      case Got(n, rest) => Got(0 - n, rest)
      case Fail => Fail
    else
      match ParseNat(s)
      case Got(n, rest) => Got(n as int, rest)
      case Fail => Fail
  }

  function HexValue(c: char): int {
    if '0' <= c <= '9' then c as int - '0' as int
    else if 'a' <= c <= 'f' then c as int - 'a' as int + 10
    else if 'A' <= c <= 'F' then c as int - 'A' as int + 10
    else -1
  }

  /** One character of a string body, escaped or not. */
  function ParseChar(s: string): (r: Parsed<char>)
    ensures r.Got? ==> |r.rest| < |s|
  {
    if s == "" || s[0] == '\"' || s[0] as int < 32 then Fail
    else if s[0] != '\\' then Got(s[0], s[1..])
    else if |s| < 2 then Fail
    else if s[1] == '\"' || s[1] == '\\' || s[1] == '/' then Got(s[1], s[2..])
    else if s[1] == 'b' then Got(8 as char, s[2..])
    else if s[1] == 't' then Got(9 as char, s[2..])
    else if s[1] == 'n' then Got(10 as char, s[2..])
    else if s[1] == 'f' then Got(12 as char, s[2..])
    else if s[1] == 'r' then Got(13 as char, s[2..])
    else if s[1] == 'u' && |s| >= 6 then
      var a, b, c, d := HexValue(s[2]), HexValue(s[3]), HexValue(s[4]), HexValue(s[5]);
      var code := a * 4096 + b * 256 + c * 16 + d;
      if a >= 0 && b >= 0 && c >= 0 && d >= 0 && (code < 0xD800 || 0xE000 <= code < 0x1_0000)
      then Got(code as char, s[6..]) else Fail
    else Fail
  }

  /** A string body up to and including its closing quote. */
  function ParseChars(s: string): (r: Parsed<string>)
    ensures r.Got? ==> |r.rest| < |s|
    decreases |s|
  {
    if s != "" && s[0] == '\"' then Got("", s[1..])
    else
      match ParseChar(s)
      case Fail => Fail
      case Got(c, rest) =>
        match ParseChars(rest)
        case Fail => Fail
        case Got(cs, rest') => Got([c] + cs, rest')
  }

  function ParseValue(s: string): (r: Parsed<Json>)
    ensures r.Got? ==> |r.rest| < |s|
    decreases |s|, 1
  {
    if s == "" then Fail
    else if "null" <= s then Got(Null, s[4..])
    else if "true" <= s then Got(Bool(true), s[4..])
    else if "false" <= s then Got(Bool(false), s[5..])
    else if s[0] == '\"' then
      (match ParseChars(s[1..])
       case Got(cs, rest) => Got(Str(cs), rest)
       case Fail => Fail)
    else if s[0] == '[' then
      if |s| > 1 && s[1] == ']' then Got(Arr([]), s[2..])
      else
        (match ParseItems(s[1..])
         case Got(items, rest) => Got(Arr(items), rest)
         case Fail => Fail)
    else if s[0] == '{' then
      if |s| > 1 && s[1] == '}' then Got(Obj([]), s[2..])
      else
        (match ParseFields(s[1..])
         case Got(fields, rest) => Got(Obj(fields), rest)
         case Fail => Fail)
    else
      match ParseInt(s)
      case Got(n, rest) => if |rest| < |s| then Got(Num(n), rest) else Fail
      case Fail => Fail
  }

  /** One or more comma-separated values and the closing bracket. */
  function ParseItems(s: string): (r: Parsed<seq<Json>>)
    ensures r.Got? ==> |r.rest| < |s|
    decreases |s|, 2
  {
    match ParseValue(s)
    case Fail => Fail
    case Got(v, rest) =>
      if rest == "" then Fail
      else if rest[0] == ']' then Got([v], rest[1..])
      else if rest[0] == ',' then
        (match ParseItems(rest[1..])
         case Got(vs, rest') => Got([v] + vs, rest')
         case Fail => Fail)
      else Fail
  }

  function ParseField(s: string): (r: Parsed<Field>)
    ensures r.Got? ==> |r.rest| < |s|
    decreases |s|, 2
  {
    if s == "" || s[0] != '\"' then Fail
    else
      match ParseChars(s[1..])
      case Fail => Fail
      case Got(key, rest) =>
        if rest == "" || rest[0] != ':' then Fail
        else
          match ParseValue(rest[1..])
          case Got(v, rest') => Got(Field(key, v), rest')
          case Fail => Fail
  }

  /** One or more comma-separated fields and the closing brace. */
  function ParseFields(s: string): (r: Parsed<seq<Field>>)
    ensures r.Got? ==> |r.rest| < |s|
    decreases |s|, 3
  {
    match ParseField(s)
    case Fail => Fail
    case Got(f, rest) =>
      if rest == "" then Fail
      else if rest[0] == '}' then Got([f], rest[1..])
      else if rest[0] == ',' then
        (match ParseFields(rest[1..])
         case Got(fs, rest') => Got([f] + fs, rest')
         case Fail => Fail)
      else Fail
  }

  // ---- the parser undoes the printer ----

  function Pow10(k: nat): nat {
    if k == 0 then 1 else 10 * Pow10(k - 1)
  }

  lemma {:induction false} ShiftDigit(a: nat, p: nat, n: nat)
    ensures (a * p + n / 10) * 10 + n % 10 == a * (10 * p) + n
  {
    assert (a * p) * 10 == a * (10 * p);
  }

  lemma {:induction false} ParseOneDigit(sofar: nat, d: nat, rest: string)
    requires d < 10
    ensures ParseDigits(sofar, [DigitChar(d)] + rest) == ParseDigits(sofar * 10 + d, rest)
  {
    assert ([DigitChar(d)] + rest)[1..] == rest;
  }

  lemma {:induction false} ParseDigitsAppend(sofar: nat, n: nat, rest: string)
    ensures ParseDigits(sofar, Digits(n) + rest) == ParseDigits(sofar * Pow10(|Digits(n)|) + n, rest)
    decreases n
  {
    if n < 10 {
      ParseOneDigit(sofar, n, rest);
      assert Pow10(1) == 10;
    } else {
      var last := [DigitChar(n % 10)];
      var p := Pow10(|Digits(n / 10)|);
      assert Digits(n) + rest == Digits(n / 10) + (last + rest);
      ParseDigitsAppend(sofar, n / 10, last + rest);
      ParseOneDigit(sofar * p + n / 10, n % 10, rest);
      ShiftDigit(sofar, p, n);
      assert Pow10(|Digits(n)|) == 10 * p;
    }
  }

  lemma {:induction n} DigitsAreDigits(n: nat)
    ensures forall i :: 0 <= i < |Digits(n)| ==> IsDigit(Digits(n)[i])
  {
  }

  lemma {:induction false} ParsePrintInt(n: int, rest: string)
    requires !StartsWithDigit(rest)
    ensures ParseInt(PrintInt(n) + rest) == Got(n, rest)
  {
    var m := if n < 0 then -n else n;
    DigitsAreDigits(m);
    ParseDigitsAppend(0, m, rest);
    assert StartsWithDigit(Digits(m) + rest);
    if n < 0 {
      assert (PrintInt(n) + rest)[1..] == Digits(m) + rest;
    }
  }

  /** An integer is printed with a minus sign exactly if it is negative, and otherwise as digits that begin with a zero only
      if that is all. */
  lemma {:induction false} IntTextExactly(n: int)
    ensures var t := PrintInt(n); |t| > 0 && (t[0] == '-' <==> n < 0)
    ensures var d := if n < 0 then PrintInt(n)[1..] else PrintInt(n);
            |d| > 0 && (forall i :: 0 <= i < |d| ==> '0' <= d[i] <= '9') && (d[0] == '0' ==> |d| == 1)
  {
    var m := if n < 0 then -n else n;
    DigitsAreDigits(m);
    NoLeadingZero(m);
    assert n < 0 ==> PrintInt(n)[1..] == Digits(m);
  }

  lemma {:induction false} NoLeadingZero(n: nat)
    ensures Digits(n)[0] == '0' <==> n == 0
    ensures Digits(n)[0] == '0' ==> |Digits(n)| == 1
  {
    if n >= 10 {
      NoLeadingZero(n / 10);
    }
  }

  /** A character of a string is printed as it is exactly if it is no control character, quote or backslash; seven have
      a two-character escape, and the other control characters four lower-case hexadecimal digits. */
  lemma {:induction false} CharTextExactly(c: char)
    ensures var t := EscapeChar(c);
            && (t == [c] <==> 32 <= c as int && c !in {'\"', '\\'})
            && (|t| == 2 <==> c in {'\"', '\\'} || c as int in {8, 9, 10, 12, 13})
            && (t != [c] && |t| != 2 ==> |t| == 6 && t[..4] == "\\u00" && LowerHex(t[4]) && LowerHex(t[5]))
  {
  }

  predicate LowerHex(c: char) {
    '0' <= c <= '9' || 'a' <= c <= 'f'
  }

  lemma {:induction false} ParseEscapedChar(c: char, rest: string)
    ensures ParseChar(EscapeChar(c) + rest) == Got(c, rest)
    ensures EscapeChar(c)[0] != '\"'
  {
    var s := EscapeChar(c) + rest;
    assert s[|EscapeChar(c)|..] == rest;
    if c as int < 32 && |EscapeChar(c)| == 6 {
      var hi, lo := c as int / 16, c as int % 16;
      assert HexValue(HexChar(hi)) == hi && HexValue(HexChar(lo)) == lo;
    }
  }

  lemma {:induction false} ParseEscaped(s: string, rest: string)
    ensures ParseChars(Escape(s) + ("\"" + rest)) == Got(s, rest)
  {
    if s == "" {
      assert Escape(s) + ("\"" + rest) == "\"" + rest;
      assert ("\"" + rest)[1..] == rest;
    } else {
      var tail := Escape(s[1..]) + ("\"" + rest);
      assert Escape(s) + ("\"" + rest) == EscapeChar(s[0]) + tail;
      ParseEscapedChar(s[0], tail);
      ParseEscaped(s[1..], rest);
      assert s == [s[0]] + s[1..];
    }
  }

  lemma {:induction false} ParseQuoted(s: string, rest: string)
    ensures Quote(s) + rest == "\"" + (Escape(s) + ("\"" + rest))
    ensures (Quote(s) + rest)[0] == '\"' && ParseChars((Quote(s) + rest)[1..]) == Got(s, rest)
  {
    ParseEscaped(s, rest);
    Requote(Escape(s), rest);
  }

  lemma {:induction false} Requote(e: string, rest: string)
    ensures ("\"" + e + "\"") + rest == "\"" + (e + ("\"" + rest))
    ensures (("\"" + e + "\"") + rest)[1..] == e + ("\"" + rest)
  {
  }

  /** A value that ends in a digit must not be followed by one. */
  predicate Delimited(v: Json, rest: string) {
    v.Num? ==> !StartsWithDigit(rest)
  }

  /** What a printed value starts with tells the parser which kind it is. */
  lemma {:induction false} ParseScalar(v: Json, rest: string)
    requires !v.Arr? && !v.Obj? && Delimited(v, rest)
    ensures ParseValue(Print(v) + rest) == Got(v, rest)
  {
    var s := Print(v) + rest;
    match v
    case Null => assert s[4..] == rest;
    case Bool(b) =>
      if b {
        assert s[0] == 't' && s[..4] == "true" && s[4..] == rest;
      } else {
        assert s[0] == 'f' && s[..5] == "false" && s[5..] == rest;
      }
    case Str(cs) => ParseQuoted(cs, rest);
    case Num(n) =>
      ParsePrintInt(n, rest);
      IntStart(n, rest);
  }

  lemma {:induction false} IntStart(n: int, rest: string)
    ensures var s := PrintInt(n) + rest; s != "" && (s[0] == '-' || IsDigit(s[0]))
  {
    DigitsAreDigits(if n < 0 then -n else n);
  }

  lemma {:induction false} PrintStart(v: Json)
    ensures Print(v) != "" && Print(v)[0] != ']' && Print(v)[0] != '}'
  {
    match v
    case Num(n) => IntStart(n, "");
    case _ =>
  }

  lemma {:induction false} ParseArr(items: seq<Json>, rest: string)
    requires items != [] ==> ParseItems(PrintItems(items) + ("]" + rest)) == Got(items, rest)
    ensures ParseValue(Print(Arr(items)) + rest) == Got(Arr(items), rest)
  {
    hide ParseItems;
    var s, body := Print(Arr(items)) + rest, PrintItems(items) + ("]" + rest);
    assert s == "[" + body && s[0] == '[' && s[1..] == body;
    if items == [] {
      assert s[1] == ']' && s[2..] == rest;
    } else {
      PrintStart(items[0]);
      assert body[0] == Print(items[0])[0];
    }
  }

  lemma {:induction false} ParseObj(fields: seq<Field>, rest: string)
    requires fields != [] ==> ParseFields(PrintFields(fields) + ("}" + rest)) == Got(fields, rest)
    ensures ParseValue(Print(Obj(fields)) + rest) == Got(Obj(fields), rest)
  {
    hide ParseFields;
    var s, body := Print(Obj(fields)) + rest, PrintFields(fields) + ("}" + rest);
    assert s == "{" + body && s[0] == '{' && s[1..] == body;
    if fields == [] {
      assert s[1] == '}' && s[2..] == rest;
    } else {
      assert body[0] == '\"';
    }
  }

  lemma {:induction false} ParsePrint(v: Json, rest: string)
    requires Delimited(v, rest)
    ensures ParseValue(Print(v) + rest) == Got(v, rest)
    decreases v, 1
  {
    hide ParseValue, ParseItems, ParseFields, Print, PrintItems, PrintFields;
    match v
    case Arr(items) =>
      if items != [] {
        ParsePrintItems(items, rest);
      }
      ParseArr(items, rest);
    case Obj(fields) =>
      if fields != [] {
        ParsePrintFields(fields, rest);
      }
      ParseObj(fields, rest);
    case _ => ParseScalar(v, rest);
  }

  lemma {:induction false} ParseLastItem(text: string, v: Json, rest: string)
    requires ParseValue(text + ("]" + rest)) == Got(v, "]" + rest)
    ensures ParseItems(text + ("]" + rest)) == Got([v], rest)
  {
    hide ParseValue;
    assert ("]" + rest)[1..] == rest;
  }

  lemma {:induction false} ParseNextItem(text: string, v: Json, tail: string, vs: seq<Json>, rest: string)
    requires ParseValue(text + ("," + tail)) == Got(v, "," + tail) && ParseItems(tail) == Got(vs, rest)
    ensures ParseItems(text + ("," + tail)) == Got([v] + vs, rest)
  {
    hide ParseValue;
    assert ("," + tail)[1..] == tail;
  }

  lemma {:induction false} ParsePrintItems(items: seq<Json>, rest: string)
    requires items != []
    ensures ParseItems(PrintItems(items) + ("]" + rest)) == Got(items, rest)
    decreases items, 0
  {
    hide ParseValue, ParseItems, Print;
    var head := Print(items[0]);
    if |items| == 1 {
      ParsePrint(items[0], "]" + rest);
      ParseLastItem(head, items[0], rest);
      assert items == [items[0]] && PrintItems(items) == head + "";
      assert PrintItems(items) + ("]" + rest) == head + ("]" + rest);
    } else {
      var tail := PrintItems(items[1..]) + ("]" + rest);
      ParsePrint(items[0], "," + tail);
      ParsePrintItems(items[1..], rest);
      ParseNextItem(head, items[0], tail, items[1..], rest);
      assert items == [items[0]] + items[1..];
      assert PrintItems(items) + ("]" + rest) == head + ("," + tail);
    }
  }

  lemma {:induction false} ParsePrintField(f: Field, rest: string)
    requires Delimited(f.value, rest)
    ensures ParseField(PrintField(f) + rest) == Got(f, rest)
    decreases f, 0
  {
    var tail := Print(f.value) + rest;
    assert PrintField(f) + rest == Quote(f.key) + (":" + tail);
    ParseQuoted(f.key, ":" + tail);
    ParsePrint(f.value, rest);
    FieldFromParts(PrintField(f) + rest, f, ":" + tail, tail, rest);
  }

  lemma {:induction false} FieldFromParts(text: string, f: Field, colon: string, tail: string, rest: string)
    requires text != "" && text[0] == '\"' && ParseChars(text[1..]) == Got(f.key, colon)
    requires colon == ":" + tail && ParseValue(tail) == Got(f.value, rest)
    ensures ParseField(text) == Got(f, rest)
  {
    assert colon[1..] == tail;
  }

  lemma {:induction false} ParseLastField(text: string, f: Field, rest: string)
    requires ParseField(text + ("}" + rest)) == Got(f, "}" + rest)
    ensures ParseFields(text + ("}" + rest)) == Got([f], rest)
  {
    hide ParseField;
    assert ("}" + rest)[1..] == rest;
  }

  lemma {:induction false} ParseNextField(text: string, f: Field, tail: string, fs: seq<Field>, rest: string)
    requires ParseField(text + ("," + tail)) == Got(f, "," + tail) && ParseFields(tail) == Got(fs, rest)
    ensures ParseFields(text + ("," + tail)) == Got([f] + fs, rest)
  {
    hide ParseField;
    assert ("," + tail)[1..] == tail;
  }

  lemma {:induction false} ParsePrintFields(fields: seq<Field>, rest: string)
    requires fields != []
    ensures ParseFields(PrintFields(fields) + ("}" + rest)) == Got(fields, rest)
    decreases fields, 0
  {
    hide ParseField, ParseFields, PrintField;
    var head := PrintField(fields[0]);
    if |fields| == 1 {
      ParsePrintField(fields[0], "}" + rest);
      ParseLastField(head, fields[0], rest);
      assert fields == [fields[0]] && PrintFields(fields) == head + "";
      assert PrintFields(fields) + ("}" + rest) == head + ("}" + rest);
    } else {
      var tail := PrintFields(fields[1..]) + ("}" + rest);
      ParsePrintField(fields[0], "," + tail);
      ParsePrintFields(fields[1..], rest);
      ParseNextField(head, fields[0], tail, fields[1..], rest);
      assert fields == [fields[0]] + fields[1..];
      assert PrintFields(fields) + ("}" + rest) == head + ("," + tail);
    }
  }

  /** The text of a whole document. */
  function Parse(s: string): Parsed<Json> {
    match ParseValue(s)
    case Got(v, rest) => if rest == "" then Got(v, "") else Fail
    case Fail => Fail
  }

  lemma {:induction false} ParseUndoesPrint(v: Json)
    ensures Parse(Print(v)) == Got(v, "")
  {
    ParsePrint(v, "");
    assert Print(v) + "" == Print(v);
  }
}
