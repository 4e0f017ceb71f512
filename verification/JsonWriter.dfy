/** The JSON string writer of src/io/writer.c and a decoder for strings as section 7 of RFC 8259
    defines them. Text is bytes; a C string is what stands before its NUL, and None is a null
    pointer. */
module JsonWriter {
  import opened Bytes
  import opened Sequences
  import opened Wrappers

  const QUOTE: byte := 34
  const BACKSLASH: byte := 92
  const NEWLINE: byte := 10

  // ---- what is written ----

  function HexDigit(n: nat): byte
    requires n < 16
  {
    if n < 10 then (48 + n) as byte else (87 + n) as byte
  }

  function Escape(ch: byte): seq<byte> {
    if ch == QUOTE then [BACKSLASH, QUOTE]
    else if ch == BACKSLASH then [BACKSLASH, BACKSLASH]
    else if ch == 8 then [BACKSLASH, 98]
    else if ch == 12 then [BACKSLASH, 102]
    else if ch == 10 then [BACKSLASH, 110]
    else if ch == 13 then [BACKSLASH, 114]
    else if ch == 9 then [BACKSLASH, 116]
    else if ch < 32 then [BACKSLASH, 117, 48, 48, HexDigit(ch as nat / 16), HexDigit(ch as nat % 16)]
    else [ch]
  }

  /** The escapes as section 7 of RFC 8259 writes them. */
  lemma EscapesAre(ch: byte)
    ensures Escape(34) == Ascii("\\\"") && Escape(92) == Ascii("\\\\") && Escape(8) == Ascii("\\b")
    ensures Escape(12) == Ascii("\\f") && Escape(10) == Ascii("\\n") && Escape(13) == Ascii("\\r") && Escape(9) == Ascii("\\t")
    ensures ch < 32 && ch !in {8, 9, 10, 12, 13} ==> Escape(ch)[..4] == Ascii("\\u00") && |Escape(ch)| == 6
    ensures ch < 32 && ch !in {8, 9, 10, 12, 13} ==>
              var hex := "0123456789abcdef";
              Escape(ch)[4] as int == hex[ch as nat / 16] as int && Escape(ch)[5] as int == hex[ch as nat % 16] as int
    ensures ch >= 32 && ch != 34 && ch != 92 ==> Escape(ch) == [ch]
  {
    HexDigitIs(ch as nat / 16);
    HexDigitIs(ch as nat % 16);
  }

  lemma HexDigitIs(n: nat)
    requires n < 16
    ensures HexDigit(n) as int == "0123456789abcdef"[n] as int
  {
  }

  function Body(s: seq<byte>): seq<byte> {
    if s == [] then [] else Body(s[..|s| - 1]) + Escape(s[|s| - 1])
  }

  function Quoted(s: seq<byte>): seq<byte> { [QUOTE] + Body(s) + [QUOTE] }

  function OrEmpty(s: Option<seq<byte>>): seq<byte> { if s.Some? then s.value else [] }

  function Ending(comma: bool): seq<byte> { if comma then [44, NEWLINE] else [NEWLINE] }

  function Field(indent: seq<byte>, name: seq<byte>, value: seq<byte>, comma: bool): seq<byte> {
    indent + Quoted(name) + [58, 32] + Quoted(value) + Ending(comma)
  }

  class File {
    var out: seq<byte>

    constructor ()
      ensures out == []
    {
      out := [];
    }

    method Put(b: seq<byte>)
      modifies this
      ensures out == old(out) + b
    {
      out := out + b;
    }

    method WriteCharacter(ch: byte)
      modifies this
      ensures out == old(out) + Escape(ch)
    {
      match ch
      case 34 => Put([BACKSLASH, QUOTE]);
      case 92 => Put([BACKSLASH, BACKSLASH]);
      case 8 => Put([BACKSLASH, 98]);
      case 12 => Put([BACKSLASH, 102]);
      case 10 => Put([BACKSLASH, 110]);
      case 13 => Put([BACKSLASH, 114]);
      case 9 => Put([BACKSLASH, 116]);
      case _ =>
        if ch < 32 {
          Put([BACKSLASH, 117, 48, 48, HexDigit(ch as nat / 16), HexDigit(ch as nat % 16)]);
        } else {
          Put([ch]);
        }
    }

    method WriteString(s: Option<seq<byte>>)
      modifies this
      ensures out == old(out) + Quoted(OrEmpty(s))
    {
      var p := OrEmpty(s);
      Put([QUOTE]);
      for k := 0 to |p|
        invariant out == old(out) + ([QUOTE] + Body(p[..k]))
      {
        BodyMore(old(out), p, k);
        WriteCharacter(p[k]);
      }
      assert p[..|p|] == p;
      Put([QUOTE]);
    }

    method WriteField(indent: Option<seq<byte>>, name: Option<seq<byte>>, value: Option<seq<byte>>, comma: bool)
      modifies this
      ensures out == old(out) + Field(OrEmpty(indent), OrEmpty(name), OrEmpty(value), comma)
    {
      Put(OrEmpty(indent));
      WriteString(name);
      Put([58, 32]);
      WriteString(value);
      Put(Ending(comma));
      Collect(old(out), OrEmpty(indent), Quoted(OrEmpty(name)), [58, 32], Quoted(OrEmpty(value)), Ending(comma));
    }
  }

  lemma BodyMore(o: seq<byte>, p: seq<byte>, k: nat)
    requires k < |p|
    ensures o + ([QUOTE] + Body(p[..k])) + Escape(p[k]) == o + ([QUOTE] + Body(p[..k + 1]))
  {
    assert p[..k + 1][..k] == p[..k];
    Three(o, [QUOTE], Body(p[..k]), Escape(p[k]));
  }

  lemma Three(o: seq<byte>, a: seq<byte>, b: seq<byte>, c: seq<byte>)
    ensures o + (a + b) + c == o + (a + (b + c))
  {
  }

  lemma Collect(o: seq<byte>, a: seq<byte>, b: seq<byte>, c: seq<byte>, d: seq<byte>, e: seq<byte>)
    ensures o + a + b + c + d + e == o + (a + b + c + d + e)
  {
  }

  // ---- the decoder ----

  /** What was read and what is left, or nothing when the text is no string. */
  datatype Reading = Malformed | Read(value: seq<byte>, rest: seq<byte>)

  function HexValue(b: byte): Option<nat> {
    if 48 <= b <= 57 then Some(b as nat - 48)
    else if 97 <= b <= 102 then Some(b as nat - 87)
    else if 65 <= b <= 70 then Some(b as nat - 55)
    else None
  }

  /** Four hexadecimal digits. */
  function Hex4(s: seq<byte>): Option<nat>
    requires |s| >= 4
  {
    var a, b, c, d := HexValue(s[0]), HexValue(s[1]), HexValue(s[2]), HexValue(s[3]);
    if a.None? || b.None? || c.None? || d.None? then None
    else Some(4096 * a.value + 256 * b.value + 16 * c.value + d.value)
  }

  /** A code point in UTF-8. */
  function Utf8(point: nat): seq<byte>
    requires point < 0x110000
  {
    if point < 0x80 then [point as byte]
    else if point < 0x800 then [(0xc0 + point / 64) as byte, (0x80 + point % 64) as byte]
    else if point < 0x10000 then
      [(0xe0 + point / 4096) as byte, (0x80 + point / 64 % 64) as byte, (0x80 + point % 64) as byte]
    else
      [(0xf0 + point / 262144) as byte, (0x80 + point / 4096 % 64) as byte, (0x80 + point / 64 % 64) as byte,
       (0x80 + point % 64) as byte]
  }

  /** After a backslash and a u: one code unit, or a surrogate pair. */
  function ReadUnit(s: seq<byte>): Reading {
    if |s| < 4 || Hex4(s).None? then Malformed
    else
      var unit := Hex4(s).value;
      if unit >= 0x10000 then Malformed
      else if unit < 0xd800 || unit >= 0xe000 then Read(Utf8(unit), s[4..])
      else if unit >= 0xdc00 || |s| < 10 || s[4] != BACKSLASH || s[5] != 117 || Hex4(s[6..]).None? then Malformed
      else
        var low := Hex4(s[6..]).value;
        if low < 0xdc00 || low >= 0xe000 then Malformed
        else Read(Utf8(0x10000 + (unit - 0xd800) * 1024 + (low - 0xdc00)), s[10..])
  }

  /** After a backslash. */
  function ReadEscape(s: seq<byte>): Reading {
    if s == [] then Malformed
    else if s[0] in [QUOTE, BACKSLASH, 47] then Read([s[0]], s[1..])
    else if s[0] == 98 then Read([8], s[1..])
    else if s[0] == 102 then Read([12], s[1..])
    else if s[0] == 110 then Read([10], s[1..])
    else if s[0] == 114 then Read([13], s[1..])
    else if s[0] == 116 then Read([9], s[1..])
    else if s[0] == 117 then ReadUnit(s[1..])
    else Malformed
  }

  /** One character of a string's content; control characters must be escaped. */
  function ReadCharacter(s: seq<byte>): (r: Reading)
    ensures r.Read? ==> |r.rest| < |s|
  {
    if s == [] || s[0] < 32 || s[0] == QUOTE then Malformed
    else if s[0] == BACKSLASH then ReadEscape(s[1..])
    else Read([s[0]], s[1..])
  }

  /** The rest of a string, up to and without its closing quote. */
  function ReadBody(s: seq<byte>): Reading
    decreases |s|
  {
    if s == [] then Malformed
    else if s[0] == QUOTE then Read([], s[1..])
    else
      var first := ReadCharacter(s);
      if first.Malformed? then Malformed
      else
        var more := ReadBody(first.rest);
        if more.Malformed? then Malformed else Read(first.value + more.value, more.rest)
  }

  function ReadString(s: seq<byte>): Reading { if s == [] || s[0] != QUOTE then Malformed else ReadBody(s[1..]) }

  // ---- the decoder undoes the writer ----

  lemma {:induction false} BodyFront(s: seq<byte>)
    requires s != []
    ensures Body(s) == Escape(s[0]) + Body(s[1..])
    decreases s
  {
    var n := |s| - 1;
    if n == 0 {
      assert s[..0] == [] && s[1..] == [];
      assert Body(s) == [] + Escape(s[0]);
    } else {
      BodyFront(s[..n]);
      assert s[..n][1..] == s[1..][..n - 1] && s[1..][n - 1] == s[n];
      Regroup(Escape(s[0]), Body(s[1..][..n - 1]), Escape(s[n]));
    }
  }

  lemma UnitReads(ch: byte, rest: seq<byte>)
    requires ch < 32
    ensures ReadUnit([48, 48, HexDigit(ch as nat / 16), HexDigit(ch as nat % 16)] + rest) == Read([ch], rest)
  {
    var s := [48, 48, HexDigit(ch as nat / 16), HexDigit(ch as nat % 16)] + rest;
    assert HexValue(s[2]) == Some(ch as nat / 16) && HexValue(s[3]) == Some(ch as nat % 16);
    assert Hex4(s) == Some(ch as nat);
    assert s[4..] == rest;
  }

  lemma ControlReads(ch: byte, rest: seq<byte>)
    requires ch < 32 && ch !in [8, 9, 10, 12, 13]
    ensures ReadEscape(Escape(ch)[1..] + rest) == Read([ch], rest)
  {
    var digits := [48, 48, HexDigit(ch as nat / 16), HexDigit(ch as nat % 16)];
    var s := Escape(ch)[1..] + rest;
    assert s[0] == 117 && s[1..] == digits + rest;
    UnitReads(ch, rest);
  }

  lemma ShortReads(ch: byte, rest: seq<byte>)
    requires |Escape(ch)| == 2
    ensures ReadEscape(Escape(ch)[1..] + rest) == Read([ch], rest)
  {
    var s := Escape(ch)[1..] + rest;
    assert s[0] == Escape(ch)[1] && s[1..] == rest;
  }

  /** Reading one written character gives it back and stops behind it. */
  lemma CharacterReads(ch: byte, rest: seq<byte>)
    ensures ReadCharacter(Escape(ch) + rest) == Read([ch], rest)
    ensures (Escape(ch) + rest)[0] != QUOTE
  {
    var s := Escape(ch) + rest;
    if |Escape(ch)| == 1 {
      assert s[0] == ch && s[1..] == rest;
    } else {
      assert s[0] == BACKSLASH && s[1..] == Escape(ch)[1..] + rest;
      if |Escape(ch)| == 2 { ShortReads(ch, rest); } else { ControlReads(ch, rest); }
    }
  }

  lemma {:induction false} BodyReads(s: seq<byte>, rest: seq<byte>)
    ensures ReadBody(Body(s) + ([QUOTE] + rest)) == Read(s, rest)
  {
    var tail := [QUOTE] + rest;
    if s == [] {
      assert Body(s) + tail == tail && tail[1..] == rest;
    } else {
      BodyFront(s);
      Regroup(Escape(s[0]), Body(s[1..]), tail);
      CharacterReads(s[0], Body(s[1..]) + tail);
      BodyReads(s[1..], rest);
      assert [s[0]] + s[1..] == s;
    }
  }

  /** Every string is read back, and reading stops exactly behind its closing quote. */
  lemma StringReads(s: seq<byte>, rest: seq<byte>)
    ensures ReadString(Quoted(s) + rest) == Read(s, rest)
  {
    var whole := Quoted(s) + rest;
    assert whole[1..] == Body(s) + ([QUOTE] + rest);
    BodyReads(s, rest);
  }

  datatype FieldReading = NoField | FieldRead(name: seq<byte>, value: seq<byte>, comma: bool, rest: seq<byte>)

  /** A member of an object as the writer lays it out, after its indentation. */
  function ReadField(s: seq<byte>): FieldReading {
    var name := ReadString(s);
    if name.Malformed? || |name.rest| < 2 || name.rest[..2] != [58, 32] then NoField
    else
      var value := ReadString(name.rest[2..]);
      if value.Malformed? then NoField
      else if Ending(true) <= value.rest then FieldRead(name.value, value.value, true, value.rest[2..])
      else if Ending(false) <= value.rest then FieldRead(name.value, value.value, false, value.rest[1..])
      else NoField
  }

  lemma FieldParts(name: seq<byte>, value: seq<byte>, comma: bool, rest: seq<byte>)
    ensures Field([], name, value, comma) + rest == Quoted(name) + ([58, 32] + (Quoted(value) + (Ending(comma) + rest)))
  {
    Unnest(Quoted(name), [58, 32], Quoted(value), Ending(comma), rest);
    assert [] + Quoted(name) == Quoted(name);
  }

  lemma Unnest(a: seq<byte>, b: seq<byte>, c: seq<byte>, d: seq<byte>, e: seq<byte>)
    ensures a + b + c + d + e == a + (b + (c + (d + e)))
  {
  }

  /** A written field splits back into its name, its value and its comma. */
  lemma FieldReads(name: seq<byte>, value: seq<byte>, comma: bool, rest: seq<byte>)
    ensures ReadField(Field([], name, value, comma) + rest) == FieldRead(name, value, comma, rest)
  {
    var last := Ending(comma) + rest;
    var middle := [58, 32] + (Quoted(value) + last);
    FieldParts(name, value, comma, rest);
    StringReads(name, middle);
    assert middle[..2] == [58, 32] && middle[2..] == Quoted(value) + last;
    StringReads(value, last);
    assert last[|Ending(comma)|..] == rest && Ending(comma) <= last;
  }

  /** So no two different fields are written alike. */
  lemma FieldsDiffer(indent: seq<byte>, n1: seq<byte>, v1: seq<byte>, c1: bool, n2: seq<byte>, v2: seq<byte>, c2: bool)
    requires Field(indent, n1, v1, c1) == Field(indent, n2, v2, c2)
    ensures n1 == n2 && v1 == v2 && c1 == c2
  {
    Indented(indent, n1, v1, c1);
    Indented(indent, n2, v2, c2);
    FieldReads(n1, v1, c1, []);
    FieldReads(n2, v2, c2, []);
  }

  lemma Indented(indent: seq<byte>, name: seq<byte>, value: seq<byte>, comma: bool)
    ensures Field(indent, name, value, comma)[|indent|..] == Field([], name, value, comma) + []
  {
    Unnest(indent, Quoted(name), [58, 32], Quoted(value), Ending(comma));
    FieldParts(name, value, comma, []);
    assert Ending(comma) + [] == Ending(comma);
  }
}
