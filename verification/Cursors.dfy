/** Opaque page cursors: compact JSON in URL-safe base64 with the padding stripped (section 5 of RFC 4648). */
module Cursors {
  import opened Wrappers
  import opened Json

  type Byte = x: int | 0 <= x < 256

  // ---- base64url ----

  function Letter(i: nat): char
    requires i < 64
  {
    if i < 26 then ('A' as int + i) as char
    else if i < 52 then ('a' as int + i - 26) as char
    else if i < 62 then ('0' as int + i - 52) as char
    else if i == 62 then '-' else '_'
  }

  function Value(c: char): Option<nat> {
    if 'A' <= c <= 'Z' then Some(c as int - 'A' as int)
    else if 'a' <= c <= 'z' then Some(c as int - 'a' as int + 26)
    else if '0' <= c <= '9' then Some(c as int - '0' as int + 52)
    else if c == '-' then Some(62) else if c == '_' then Some(63) else None
  }

  lemma LetterValue(i: nat)
    requires i < 64
    ensures Value(Letter(i)) == Some(i) && Letter(i) != '='
  {
  }

  function Quad(b0: Byte, b1: Byte, b2: Byte): (s: string)
    ensures |s| == 4
  {
    [Letter(b0 / 4), Letter(b0 % 4 * 16 + b1 / 16), Letter(b1 % 16 * 4 + b2 / 64), Letter(b2 % 64)]
  }

  function Encode64(b: seq<Byte>): string {
    if |b| == 0 then ""
    else if |b| == 1 then Quad(b[0], 0, 0)[..2] + "=="
    else if |b| == 2 then Quad(b[0], b[1], 0)[..3] + "="
    else Quad(b[0], b[1], b[2]) + Encode64(b[3..])
  }

  /** Groups of four; padding only at the end; spare bits of a padded group are dropped. */
  function Decode64(s: string): Option<seq<Byte>> {
    if s == "" then Some([])
    else if |s| < 4 || Value(s[0]).None? || Value(s[1]).None? then None
    else
      var v0, v1 := Value(s[0]).value, Value(s[1]).value;
      if s[2..] == "==" then First(v0, v1)
      else if Value(s[2]).None? then None
      else if s[3..] == "=" then Second(v0, v1, Value(s[2]).value)
      else if Value(s[3]).None? then None
      else
        var tail := Decode64(s[4..]);
        if tail.None? then None else Third(v0, v1, Value(s[2]).value, Value(s[3]).value, tail.value)
  }

  function First(v0: nat, v1: nat): Option<seq<Byte>> {
    if v0 < 64 && v1 < 64 then Some([v0 * 4 + v1 / 16]) else None
  }

  function Second(v0: nat, v1: nat, v2: nat): Option<seq<Byte>> {
    if v0 < 64 && v1 < 64 && v2 < 64 then Some([v0 * 4 + v1 / 16, v1 % 16 * 16 + v2 / 4]) else None
  }

  function Third(v0: nat, v1: nat, v2: nat, v3: nat, tail: seq<Byte>): Option<seq<Byte>> {
    if v0 < 64 && v1 < 64 && v2 < 64 && v3 < 64
    then Some([v0 * 4 + v1 / 16, v1 % 16 * 16 + v2 / 4, v2 % 4 * 64 + v3] + tail) else None
  }

  function StripPadding(s: string): string {
    if s != "" && s[|s| - 1] == '=' then StripPadding(s[..|s| - 1]) else s
  }

  /** `"=" * (-len % 4)`. */
  function Padding(n: nat): string {
    match n % 4 case 0 => "" case 3 => "=" case 2 => "==" case _ => "==="
  }

  lemma {:induction false} SplitBits(a: Byte, b: Byte, c: Byte)
    ensures a / 4 < 64 && a % 4 * 16 + b / 16 < 64 && b % 16 * 4 + c / 64 < 64 && c % 64 < 64
    ensures (a / 4) * 4 + (a % 4 * 16 + b / 16) / 16 == a
    ensures (a % 4 * 16 + b / 16) % 16 * 16 + (b % 16 * 4 + c / 64) / 4 == b
    ensures (b % 16 * 4 + c / 64) % 4 * 64 + c % 64 == c
  {
    var q, r := b / 16, b % 16;
    assert (a % 4 * 16 + q) / 16 == a % 4 && (a % 4 * 16 + q) % 16 == q;
    var t := c / 64;
    assert (r * 4 + t) / 4 == r && (r * 4 + t) % 4 == t;
  }

  lemma {:induction false} QuadLetters(b0: Byte, b1: Byte, b2: Byte)
    ensures var q := Quad(b0, b1, b2);
            && (forall i :: 0 <= i < 4 ==> Value(q[i]).Some? && q[i] != '=')
            && Value(q[0]).value == b0 / 4 && Value(q[1]).value == b0 % 4 * 16 + b1 / 16
            && Value(q[2]).value == b1 % 16 * 4 + b2 / 64 && Value(q[3]).value == b2 % 64
  {
    hide Letter, Value;
    SplitBits(b0, b1, b2);
    LetterValue(b0 / 4);
    LetterValue(b0 % 4 * 16 + b1 / 16);
    LetterValue(b1 % 16 * 4 + b2 / 64);
    LetterValue(b2 % 64);
  }

  lemma {:induction false} DecodeQuad(b0: Byte, b1: Byte, b2: Byte, rest: string)
    ensures Decode64(Quad(b0, b1, b2) + rest)
            == var tail := Decode64(rest); if tail.None? then None else Some([b0, b1, b2] + tail.value)
    ensures Decode64(Quad(b0, b1, 0)[..3] + "=") == Some([b0, b1])
    ensures Decode64(Quad(b0, 0, 0)[..2] + "==") == Some([b0])
  {
    hide Letter, Value, Quad, Decode64, First, Second, Third;
    var tail := Decode64(rest);
    QuadDecodes(b0, b1, b2, rest);
    BitsJoin(b0, b1, b2, if tail.Some? then tail.value else []);
    QuadDecodes(b0, b1, 0, "");
    BitsJoin(b0, b1, 0, []);
    QuadDecodes(b0, 0, 0, "");
    BitsJoin(b0, 0, 0, []);
  }

  lemma {:induction false} BitsJoin(b0: Byte, b1: Byte, b2: Byte, tail: seq<Byte>)
    ensures var v0, v1, v2, v3 := b0 / 4, b0 % 4 * 16 + b1 / 16, b1 % 16 * 4 + b2 / 64, b2 % 64;
            && First(v0, v1) == Some([b0]) && Second(v0, v1, v2) == Some([b0, b1])
            && Third(v0, v1, v2, v3, tail) == Some([b0, b1, b2] + tail)
  {
    SplitBits(b0, b1, b2);
  }

  lemma {:induction false} QuadDecodes(b0: Byte, b1: Byte, b2: Byte, rest: string)
    ensures var v0, v1, v2, v3 := b0 / 4, b0 % 4 * 16 + b1 / 16, b1 % 16 * 4 + b2 / 64, b2 % 64;
            && Decode64(Quad(b0, b1, b2) + rest)
               == (var tail := Decode64(rest); if tail.None? then None else Third(v0, v1, v2, v3, tail.value))
            && Decode64(Quad(b0, b1, b2)[..3] + "=") == Second(v0, v1, v2)
            && Decode64(Quad(b0, b1, b2)[..2] + "==") == First(v0, v1)
  {
    hide Letter, Value, Quad, First, Second, Third;
    QuadLetters(b0, b1, b2);
    var q := Quad(b0, b1, b2);
    var s := q + rest;
    assert s[2..] != "==" by { assert s[2..][0] == q[2]; }
    assert s[3..] != "=" by { assert s[3..][0] == q[3]; }
    assert s[4..] == rest;
    var t := q[..3] + "=";
    assert t[2..] != "==" by { assert t[2..][0] == q[2]; }
    assert t[3..] == "=";
    assert (q[..2] + "==")[2..] == "==";
  }

  lemma {:induction false} DecodeUndoesEncode(b: seq<Byte>)
    ensures Decode64(Encode64(b)) == Some(b)
  {
    hide Quad, Value, Letter, First, Second, Third;
    if |b| == 1 {
      DecodeQuad(b[0], 0, 0, "");
      assert b == [b[0]];
    } else if |b| == 2 {
      DecodeQuad(b[0], b[1], 0, "");
      assert b == [b[0], b[1]];
    } else if |b| > 2 {
      DecodeQuad(b[0], b[1], b[2], Encode64(b[3..]));
      DecodeUndoesEncode(b[3..]);
      assert b == [b[0], b[1], b[2]] + b[3..];
    }
  }

  lemma {:induction false} StripNothing(head: string)
    requires head != "" && head[|head| - 1] != '='
    ensures StripPadding(head) == head && StripPadding(head + "=") == head && StripPadding(head + "==") == head
  {
    assert (head + "=")[..|head|] == head;
    assert (head + "==")[..|head| + 1] == head + "=";
  }

  /** The stripped text has its padding restored from its length alone. */
  lemma {:induction false} PaddingRestored(b: seq<Byte>)
    ensures var s := StripPadding(Encode64(b)); s + Padding(|s|) == Encode64(b)
  {
    hide Quad, Value, Letter;
    if |b| == 1 {
      QuadLetters(b[0], 0, 0);
      StripNothing(Quad(b[0], 0, 0)[..2]);
    } else if |b| == 2 {
      QuadLetters(b[0], b[1], 0);
      StripNothing(Quad(b[0], b[1], 0)[..3]);
    } else if |b| > 2 {
      PaddingRestored(b[3..]);
      QuadLetters(b[0], b[1], b[2]);
      var head, tail := Quad(b[0], b[1], b[2]), Encode64(b[3..]);
      StripAfter(head, tail);
      PaddingAfter(head, StripPadding(tail), tail);
    }
  }

  lemma {:induction false} PaddingAfter(head: string, t: string, tail: string)
    requires |head| == 4 && t + Padding(|t|) == tail
    ensures (head + t) + Padding(|head + t|) == head + tail
  {
    assert |head + t| % 4 == |t| % 4;
    assert (head + t) + Padding(|t|) == head + (t + Padding(|t|));
  }

  lemma {:induction false} StripAfter(head: string, tail: string)
    requires head != "" && head[|head| - 1] != '='
    ensures StripPadding(head + tail) == head + StripPadding(tail)
  {
    if tail == "" {
      assert head + tail == head;
    } else {
      assert (head + tail)[..|head + tail| - 1] == head + tail[..|tail| - 1];
      StripAfter(head, tail[..|tail| - 1]);
    }
  }

  // ---- text as bytes ----

  predicate Ascii(s: string) {
    forall c :: c in s ==> c as int < 128
  }

  function Bytes(s: string): seq<Byte>
    requires Ascii(s)
  {
    seq(|s|, i requires 0 <= i < |s| => ByteOf(s, i))
  }

  function ByteOf(s: string, i: nat): Byte
    requires Ascii(s) && i < |s|
  {
    assert s[i] in s;
    s[i] as int
  }

  function Text(b: seq<Byte>): string {
    seq(|b|, i requires 0 <= i < |b| => b[i] as char)
  }

  // ---- cursors ----

  datatype Cursor = Cursor(afterTime: int, afterId: string)

  /** ISO rendering of instants, as arbitrary functions. */
  datatype Clock = Clock(iso: int -> string, fromIso: string -> Option<int>)

  /** Reading an instant back gives the instant. */
  ghost predicate Faithful(clock: Clock) {
    forall t :: clock.fromIso(clock.iso(t)) == Some(t) && Ascii(clock.iso(t))
  }

  function Payload(clock: Clock, c: Cursor): string {
    Print(Obj([Field("t", Str(clock.iso(c.afterTime))), Field("i", Str(c.afterId))]))
  }

  function Encode(clock: Clock, c: Cursor): string
    requires Ascii(Payload(clock, c))
  {
    StripPadding(Encode64(Bytes(Payload(clock, c))))
  }

  function LastField(fields: seq<Field>, key: string): Option<Json> {
    if fields == [] then None
    else if fields[|fields| - 1].key == key then Some(fields[|fields| - 1].value)
    else LastField(fields[..|fields| - 1], key)
  }

  /** Whatever does not decode is no cursor: listing starts from the top. */
  function Decode(clock: Clock, raw: Option<string>): Option<Cursor> {
    if raw.None? || raw.value == "" then None
    else
      var bytes := Decode64(raw.value + Padding(|raw.value|));
      if bytes.None? then None
      else
        match Parse(Text(bytes.value))
        case Fail => None
        case Got(v, _) =>
          if !v.Obj? then None
          else
            var t, i := LastField(v.fields, "t"), LastField(v.fields, "i");
            if t.None? || i.None? || !t.value.Str? || !i.value.Str? then None
            else
              var time := clock.fromIso(t.value.s);
              if time.None? then None else Some(Cursor(time.value, i.value.s))
  }

  lemma {:induction false} EscapeIsAscii(s: string)
    requires Ascii(s)
    ensures Ascii(Escape(s))
  {
    if s != "" {
      assert s[0] in s;
      forall c | c in s[1..] ensures c as int < 128 {
        assert c in s;
      }
      EscapeIsAscii(s[1..]);
      var e := EscapeChar(s[0]);
      forall c | c in e ensures c as int < 128 {
      }
    }
  }

  lemma {:induction false} AsciiAppend(a: string, b: string)
    ensures Ascii(a + b) <==> Ascii(a) && Ascii(b)
  {
    forall c ensures c in a + b <==> c in a || c in b {
    }
  }

  lemma {:induction false} TextOfBytes(s: string)
    requires Ascii(s)
    ensures Text(Bytes(s)) == s
  {
  }

  lemma {:induction false} PayloadIsAscii(clock: Clock, c: Cursor)
    requires Faithful(clock) && Ascii(c.afterId)
    ensures Ascii(Payload(clock, c))
  {
    var f, g := Field("t", Str(clock.iso(c.afterTime))), Field("i", Str(c.afterId));
    FieldIsAscii("t", clock.iso(c.afterTime));
    FieldIsAscii("i", c.afterId);
    assert [f, g][1..] == [g];
    assert PrintFields([g]) == PrintField(g) + "";
    assert PrintFields([f, g]) == PrintField(f) + ("," + PrintFields([g]));
    assert Ascii("") && Ascii(",") && Ascii("{") && Ascii("}");
    AsciiAppend(PrintField(g), "");
    AsciiAppend(",", PrintFields([g]));
    AsciiAppend(PrintField(f), "," + PrintFields([g]));
    AsciiAppend("{", PrintFields([f, g]));
    AsciiAppend("{" + PrintFields([f, g]), "}");
  }

  lemma {:induction false} FieldIsAscii(key: string, text: string)
    requires Ascii(key) && Ascii(text)
    ensures Ascii(PrintField(Field(key, Str(text))))
  {
    EscapeIsAscii(key);
    EscapeIsAscii(text);
    QuoteIsAscii(key);
    QuoteIsAscii(text);
    assert Ascii(":");
    AsciiAppend(Quote(key), ":");
    AsciiAppend(Quote(key) + ":", Quote(text));
  }

  lemma {:induction false} QuoteIsAscii(s: string)
    requires Ascii(Escape(s))
    ensures Ascii(Quote(s))
  {
    assert Ascii("\"");
    AsciiAppend("\"", Escape(s));
    AsciiAppend("\"" + Escape(s), "\"");
  }

  /** A cursor comes back from its wire form unchanged. */
  lemma {:induction false} CursorRoundTrip(clock: Clock, c: Cursor)
    requires Faithful(clock) && Ascii(c.afterId)
    ensures Ascii(Payload(clock, c))
    ensures Decode(clock, Some(Encode(clock, c))) == Some(c) && Encode(clock, c) != ""
  {
    hide Encode64, Decode64, StripPadding, Padding;
    PayloadIsAscii(clock, c);
    var payload := Payload(clock, c);
    var bytes := Bytes(payload);
    PaddingRestored(bytes);
    DecodeUndoesEncode(bytes);
    TextOfBytes(payload);
    var fields := [Field("t", Str(clock.iso(c.afterTime))), Field("i", Str(c.afterId))];
    ParseUndoesPrint(Obj(fields));
    FieldsFound(fields);
    EncodesToSomething(bytes);
  }

  lemma {:induction false} FieldsFound(fields: seq<Field>)
    requires |fields| == 2 && fields[0].key == "t" && fields[1].key == "i"
    ensures LastField(fields, "t") == Some(fields[0].value) && LastField(fields, "i") == Some(fields[1].value)
  {
    assert fields[..1][..0] == [];
  }

  lemma {:induction false} EncodesToSomething(b: seq<Byte>)
    requires b != []
    ensures StripPadding(Encode64(b)) != ""
  {
    PaddingRestored(b);
    DecodeUndoesEncode(b);
  }
}
