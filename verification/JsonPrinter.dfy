/** The JSON printer of the native bridge (packages/core/src/duckclaw.cpp): query results as an
    array of objects of strings.  The parser below is the reader's side, written from sections
    2, 4, 5 and 7 of RFC 8259 for values made of arrays, objects and strings. */
module JsonPrinter {

  import opened Sequences

  type byte = x: int | 0 <= x < 256

  type Bytes = seq<byte>

  const QUOTE: byte := 0x22
  const COMMA: byte := 0x2c
  const SLASH: byte := 0x2f
  const COLON: byte := 0x3a
  const OPEN_ARRAY: byte := 0x5b
  const BACKSLASH: byte := 0x5c
  const CLOSE_ARRAY: byte := 0x5d
  const LETTER_B: byte := 0x62
  const LETTER_F: byte := 0x66
  const LETTER_N: byte := 0x6e
  const LETTER_R: byte := 0x72
  const LETTER_T: byte := 0x74
  const LETTER_U: byte := 0x75
  const OPEN_OBJECT: byte := 0x7b
  const CLOSE_OBJECT: byte := 0x7d

  // ---- The printer ----

  /** A lower-case hexadecimal digit, as %04x prints it. */
  function HexDigit(d: int): byte
    requires 0 <= d < 16
  {
    if d < 10 then 0x30 + d else 0x61 + (d - 10)
  }

  function EscapeByte(c: byte): Bytes {
    if c == QUOTE then [BACKSLASH, QUOTE]
    else if c == BACKSLASH then [BACKSLASH, BACKSLASH]
    else if c == 0x08 then [BACKSLASH, LETTER_B]
    else if c == 0x0c then [BACKSLASH, LETTER_F]
    else if c == 0x0a then [BACKSLASH, LETTER_N]
    else if c == 0x0d then [BACKSLASH, LETTER_R]
    else if c == 0x09 then [BACKSLASH, LETTER_T]
    else if c < 0x20 then [BACKSLASH, LETTER_U, HexDigit(0), HexDigit(0), HexDigit(c / 16), HexDigit(c % 16)]
    else [c]
  }

  function Escape(s: Bytes): Bytes {
    if s == [] then [] else EscapeByte(s[0]) + Escape(s[1..])
  }

  method JsonEscape(s: Bytes) returns (out: Bytes)
    ensures out == Escape(s)
  {
    out := [];
    var i := 0;
    while i < |s|
      invariant 0 <= i <= |s|
      invariant out + Escape(s[i..]) == Escape(s)
    {
      assert s[i..][1..] == s[i + 1..];
      Assoc(out, EscapeByte(s[i]), Escape(s[i + 1..]));
      out := out + EscapeByte(s[i]);
      i := i + 1;
    }
  }

  /** "key":"value" */
  function Field(name: Bytes, cell: Bytes): Bytes {
    ([QUOTE] + Escape(name) + [QUOTE]) + ([COLON] + ([QUOTE] + Escape(cell) + [QUOTE]))
  }

  /** The items from `i` on, each after the first preceded by a comma. */
  function Join(items: seq<Bytes>, i: nat): Bytes
    decreases |items| - i
  {
    if i >= |items| then []
    else (if i > 0 then [COMMA] else []) + (items[i] + Join(items, i + 1))
  }

  function FieldTexts(names: seq<Bytes>, row: seq<Bytes>): (r: seq<Bytes>)
    requires |row| == |names|
    ensures |r| == |names| && forall i :: 0 <= i < |r| ==> r[i] == Field(names[i], row[i])
  {
    seq(|names|, i requires 0 <= i < |names| => Field(names[i], row[i]))
  }

  function Object(names: seq<Bytes>, row: seq<Bytes>): Bytes
    requires |row| == |names|
  {
    [OPEN_OBJECT] + (Join(FieldTexts(names, row), 0) + [CLOSE_OBJECT])
  }

  predicate IsTable(names: seq<Bytes>, rows: seq<seq<Bytes>>) {
    forall r :: r in rows ==> |r| == |names|
  }

  function ObjectTexts(names: seq<Bytes>, rows: seq<seq<Bytes>>): (r: seq<Bytes>)
    requires IsTable(names, rows)
    ensures |r| == |rows| && forall i :: 0 <= i < |r| ==> r[i] == Object(names, rows[i])
  {
    seq(|rows|, i requires 0 <= i < |rows| => Object(names, rows[i]))
  }

  function Print(names: seq<Bytes>, rows: seq<seq<Bytes>>): Bytes
    requires IsTable(names, rows)
  {
    [OPEN_ARRAY] + (Join(ObjectTexts(names, rows), 0) + [CLOSE_ARRAY])
  }

  // ---- The same in the characters of the wire ----

  /** The bytes of a text of ASCII characters. */
  function Ascii(s: string): (r: Bytes)
    ensures |r| == |s| && forall i :: 0 <= i < |s| && s[i] < '\U{100}' ==> r[i] == s[i] as int
  {
    seq(|s|, i requires 0 <= i < |s| => if s[i] < '\U{100}' then s[i] as int else 0)
  }

  /** How each byte of a string is printed. */
  lemma EscapesAre(c: byte)
    ensures c == 34 ==> EscapeByte(c) == Ascii("\\\"")
    ensures c == 92 ==> EscapeByte(c) == Ascii("\\\\")
    ensures c == 8 ==> EscapeByte(c) == Ascii("\\b")
    ensures c == 12 ==> EscapeByte(c) == Ascii("\\f")
    ensures c == 10 ==> EscapeByte(c) == Ascii("\\n")
    ensures c == 13 ==> EscapeByte(c) == Ascii("\\r")
    ensures c == 9 ==> EscapeByte(c) == Ascii("\\t")
    ensures c < 32 && c !in {8, 9, 10, 12, 13} ==>
              EscapeByte(c) == Ascii("\\u00") + [if c < 16 then 48 else 49,
                                                 "0123456789abcdef"[c % 16] as int]
    ensures c >= 32 && c != 34 && c != 92 ==> EscapeByte(c) == [c]
  {
    assert Ascii("\\u00") == [92, 117, 48, 48];
  }

  /** What stands around and between names and cells. */
  lemma FieldIs(name: Bytes, cell: Bytes)
    ensures Field(name, cell) == Ascii("\"") + Escape(name) + Ascii("\":\"") + Escape(cell) + Ascii("\"")
  {
    FieldOf(Escape(name), Escape(cell));
  }

  lemma FieldOf(key: Bytes, val: Bytes)
    ensures ([QUOTE] + key + [QUOTE]) + ([COLON] + ([QUOTE] + val + [QUOTE]))
         == Ascii("\"") + key + Ascii("\":\"") + val + Ascii("\"")
  {
    assert Ascii("\":\"") == [34, 58, 34] && Ascii("\"") == [34];
  }

  /** And around objects and rows. */
  lemma BracketsAre(names: seq<Bytes>, row: seq<Bytes>, rows: seq<seq<Bytes>>)
    requires |row| == |names| && IsTable(names, rows)
    ensures Object(names, row) == Ascii("{") + (Join(FieldTexts(names, row), 0) + Ascii("}"))
    ensures Print(names, rows) == Ascii("[") + (Join(ObjectTexts(names, rows), 0) + Ascii("]"))
  {
    assert Ascii("{") == [123] && Ascii("}") == [125] && Ascii("[") == [91] && Ascii("]") == [93];
  }

  /** Items stand one after the other with a comma between any two. */
  lemma JoinIs(items: seq<Bytes>)
    requires |items| >= 2
    ensures Join(items, 0) == items[0] + Join(items, 1)
    ensures forall i: nat :: 1 <= i < |items| ==> Join(items, i) == Ascii(",") + items[i] + Join(items, i + 1)
    ensures Join(items, |items|) == []
  {
    assert Ascii(",") == [44];
    forall i: nat | 1 <= i < |items| ensures Join(items, i) == Ascii(",") + items[i] + Join(items, i + 1) {
      Assoc([COMMA], items[i], Join(items, i + 1));
    }
  }

  /** One turn of a printing loop: separator, then item. */
  method AppendItem(out: Bytes, first: bool, item: Bytes, ghost items: seq<Bytes>, ghost i: nat, ghost total: Bytes)
      returns (more: Bytes)
    requires i < |items| && item == items[i] && (first <==> i == 0)
    requires out + Join(items, i) == total
    ensures more + Join(items, i + 1) == total
  {
    ghost var separator := if first then [] else [COMMA];
    Assoc(out + separator, item, Join(items, i + 1));
    Assoc(out, separator, item + Join(items, i + 1));
    more := out + (if first then [] else [COMMA]) + item;
  }

  lemma CloseList(open: byte, items: seq<Bytes>, out: Bytes, close: byte)
    requires out + Join(items, |items|) == [open] + Join(items, 0)
    ensures out + [close] == [open] + (Join(items, 0) + [close])
  {
    assert out + [] == out;
    Assoc([open], Join(items, 0), [close]);
  }

  /** One turn of the loop over the columns. */
  method AppendField(out: Bytes, first: bool, name: Bytes, cell: Bytes,
                     ghost items: seq<Bytes>, ghost i: nat, ghost total: Bytes)
      returns (more: Bytes)
    requires i < |items| && items[i] == Field(name, cell) && (first <==> i == 0)
    requires out + Join(items, i) == total
    ensures more + Join(items, i + 1) == total
  {
    var key := JsonEscape(name);
    var val := JsonEscape(cell);
    var field := ([QUOTE] + key + [QUOTE]) + ([COLON] + ([QUOTE] + val + [QUOTE]));
    more := AppendItem(out, first, field, items, i, total);
  }

  /** The inner loop, over the columns. */
  method PrintFields(names: seq<Bytes>, row: seq<Bytes>, ghost texts: seq<Bytes>) returns (json: Bytes)
    requires |row| == |names| && texts == FieldTexts(names, row)
    ensures json + Join(texts, |texts|) == [OPEN_OBJECT] + Join(texts, 0)
  {
    ghost var total := [OPEN_OBJECT] + Join(texts, 0);
    json := [OPEN_OBJECT];
    var col := 0;
    while col < |names|
      invariant 0 <= col <= |names|
      invariant json + Join(texts, col) == total
    {
      json := AppendField(json, col == 0, names[col], row[col], texts, col, total);
      col := col + 1;
    }
  }

  /** One row of `query`. */
  method PrintRow(names: seq<Bytes>, row: seq<Bytes>) returns (json: Bytes)
    requires |row| == |names|
    ensures json == Object(names, row)
  {
    ghost var texts := FieldTexts(names, row);
    json := PrintFields(names, row, texts);
    CloseList(OPEN_OBJECT, texts, json, CLOSE_OBJECT);
    json := json + [CLOSE_OBJECT];
  }

  /** One turn of the loop over the rows. */
  method AppendRow(out: Bytes, first: bool, names: seq<Bytes>, row: seq<Bytes>,
                   ghost items: seq<Bytes>, ghost i: nat, ghost total: Bytes)
      returns (more: Bytes)
    requires |row| == |names| && i < |items| && items[i] == Object(names, row) && (first <==> i == 0)
    requires out + Join(items, i) == total
    ensures more + Join(items, i + 1) == total
  {
    var text := PrintRow(names, row);
    more := AppendItem(out, first, text, items, i, total);
  }

  /** The outer loop, over the rows. */
  method PrintRows(names: seq<Bytes>, rows: seq<seq<Bytes>>, ghost texts: seq<Bytes>) returns (json: Bytes)
    requires IsTable(names, rows) && texts == ObjectTexts(names, rows)
    ensures json + Join(texts, |texts|) == [OPEN_ARRAY] + Join(texts, 0)
  {
    ghost var total := [OPEN_ARRAY] + Join(texts, 0);
    json := [OPEN_ARRAY];
    var firstRow := true;
    var i := 0;
    while i < |rows|
      invariant 0 <= i <= |rows| && (firstRow <==> i == 0)
      invariant json + Join(texts, i) == total
    {
      json := AppendRow(json, firstRow, names, rows[i], texts, i, total);
      firstRow := false;
      i := i + 1;
    }
  }

  /** `DuckClaw::query` after the engine has answered. */
  method Query(names: seq<Bytes>, rows: seq<seq<Bytes>>) returns (json: Bytes)
    requires IsTable(names, rows)
    ensures json == Print(names, rows)
  {
    ghost var texts := ObjectTexts(names, rows);
    json := PrintRows(names, rows, texts);
    CloseList(OPEN_ARRAY, texts, json, CLOSE_ARRAY);
    json := json + [CLOSE_ARRAY];
  }

  // ---- The parser ----

  datatype Json = Str(s: Bytes) | Arr(items: seq<Json>) | Obj(members: seq<(Bytes, Json)>)

  /** What was read and what is left. */
  datatype Read<T> = Bad | Got(value: T, rest: Bytes)

  predicate IsSpace(c: byte) { c == 0x20 || c == 0x09 || c == 0x0a || c == 0x0d }

  function SkipSpace(s: Bytes): (r: Bytes)
    ensures |r| <= |s|
  {
    if s != [] && IsSpace(s[0]) then SkipSpace(s[1..]) else s
  }

  function HexValue(c: byte): int {
    if 0x30 <= c <= 0x39 then c - 0x30
    else if 0x61 <= c <= 0x66 then c - 0x61 + 10
    else if 0x41 <= c <= 0x46 then c - 0x41 + 10
    else -1
  }

  /** Four hexadecimal digits as a code unit, or -1. */
  function CodeUnit(s: Bytes): (r: int)
    requires |s| >= 4
    ensures r < 0x10000
  {
    if HexValue(s[0]) < 0 || HexValue(s[1]) < 0 || HexValue(s[2]) < 0 || HexValue(s[3]) < 0 then -1
    else ((HexValue(s[0]) * 16 + HexValue(s[1])) * 16 + HexValue(s[2])) * 16 + HexValue(s[3])
  }

  /** UTF-8 of a code point below 0x110000. */
  function Utf8(c: int): Bytes
    requires 0 <= c < 0x110000
  {
    if c < 0x80 then [c]
    else if c < 0x800 then [0xc0 + c / 0x40, 0x80 + c % 0x40]
    else if c < 0x10000 then [0xe0 + c / 0x1000, 0x80 + c / 0x40 % 0x40, 0x80 + c % 0x40]
    else [0xf0 + c / 0x40000, 0x80 + c / 0x1000 % 0x40, 0x80 + c / 0x40 % 0x40, 0x80 + c % 0x40]
  }

  /** The text after a backslash: one of the eight short escapes or \uXXXX, where a surrogate
      pair is one character. */
  function ReadEscape(s: Bytes): (r: Read<Bytes>)
    ensures r.Got? ==> |r.rest| < |s|
  {
    if s == [] then Bad
    else if s[0] in {QUOTE, BACKSLASH, SLASH} then Got([s[0]], s[1..])
    else if s[0] == LETTER_B then Got([0x08], s[1..])
    else if s[0] == LETTER_F then Got([0x0c], s[1..])
    else if s[0] == LETTER_N then Got([0x0a], s[1..])
    else if s[0] == LETTER_R then Got([0x0d], s[1..])
    else if s[0] == LETTER_T then Got([0x09], s[1..])
    else if s[0] == LETTER_U && |s| >= 5 && CodeUnit(s[1..]) >= 0 then
      var c := CodeUnit(s[1..]);
      var low :=
        if 0xd800 <= c < 0xdc00 && |s| >= 11 && s[5] == BACKSLASH && s[6] == LETTER_U then CodeUnit(s[7..]) else -1;
      if 0xdc00 <= low < 0xe000 then Got(Utf8(0x10000 + (c - 0xd800) * 0x400 + (low - 0xdc00)), s[11..])
      else Got(Utf8(c), s[5..])
    else Bad
  }

  /** The characters of a string up to its closing quote; control characters must be escaped. */
  function ReadChars(s: Bytes): (r: Read<Bytes>)
    ensures r.Got? ==> |r.rest| < |s|
    decreases |s|
  {
    if s == [] || s[0] < 0x20 then Bad
    else if s[0] == QUOTE then Got([], s[1..])
    else if s[0] == BACKSLASH then
      match ReadEscape(s[1..])
      case Bad => Bad
      case Got(c, rest) =>
        (match ReadChars(rest)
         case Bad => Bad
         case Got(more, end) => Got(c + more, end))
    else
      match ReadChars(s[1..])
      case Bad => Bad
      case Got(more, end) => Got([s[0]] + more, end)
  }

  /** A value, possibly after white space. */
  function ReadValue(text: Bytes): (r: Read<Json>)
    ensures r.Got? ==> |r.rest| < |text|
    decreases |text|, 0
  {
    var s := SkipSpace(text);
    if s == [] then Bad
    else if s[0] == QUOTE then
      match ReadChars(s[1..])
      case Bad => Bad
      case Got(c, rest) => Got(Str(c), rest)
    else if s[0] == OPEN_ARRAY then
      var t := SkipSpace(s[1..]);
      if t != [] && t[0] == CLOSE_ARRAY then Got(Arr([]), t[1..])
      else
        match ReadItems(s[1..])
        case Bad => Bad
        case Got(items, rest) => Got(Arr(items), rest)
    else if s[0] == OPEN_OBJECT then
      var t := SkipSpace(s[1..]);
      if t != [] && t[0] == CLOSE_OBJECT then Got(Obj([]), t[1..])
      else
        match ReadMembers(s[1..])
        case Bad => Bad
        case Got(members, rest) => Got(Obj(members), rest)
    else Bad
  }

  /** One or more values, then a closing bracket. */
  function ReadItems(text: Bytes): (r: Read<seq<Json>>)
    ensures r.Got? ==> |r.rest| < |text|
    decreases |text|, 1
  {
    match ReadValue(text)
    case Bad => Bad
    case Got(v, after) =>
      var t := SkipSpace(after);
      if t == [] then Bad
      else if t[0] == CLOSE_ARRAY then Got([v], t[1..])
      else if t[0] == COMMA then
        match ReadItems(t[1..])
        case Bad => Bad
        case Got(vs, rest) => Got([v] + vs, rest)
      else Bad
  }

  /** One or more "name": value pairs, then a closing brace. */
  function ReadMembers(text: Bytes): (r: Read<seq<(Bytes, Json)>>)
    ensures r.Got? ==> |r.rest| < |text|
    decreases |text|, 1
  {
    var s := SkipSpace(text);
    if s == [] || s[0] != QUOTE then Bad
    else match ReadChars(s[1..])
      case Bad => Bad
      case Got(name, after) =>
        var t := SkipSpace(after);
        if t == [] || t[0] != COLON then Bad
        else match ReadValue(t[1..])
          case Bad => Bad
          case Got(v, afterValue) =>
            var u := SkipSpace(afterValue);
            if u == [] then Bad
            else if u[0] == CLOSE_OBJECT then Got([(name, v)], u[1..])
            else if u[0] == COMMA then
              match ReadMembers(u[1..])
              case Bad => Bad
              case Got(ms, rest) => Got([(name, v)] + ms, rest)
            else Bad
  }

  function Parse(text: Bytes): Read<Json> {
    match ReadValue(text)
    case Bad => Bad
    case Got(v, rest) => if SkipSpace(rest) == [] then Got(v, []) else Bad
  }

  // ---- Round trip ----

  /** The result of reading one more character in front of what is read from `t`. */
  function WithByte(c: byte, t: Bytes): Read<Bytes> {
    match ReadChars(t) case Bad => Bad case Got(more, end) => Got([c] + more, end)
  }

  lemma ReadEscaped(c: byte, t: Bytes)
    ensures ReadChars(EscapeByte(c) + t) == WithByte(c, t)
  {}

  lemma {:induction false} ReadPrintedChars(s: Bytes, t: Bytes)
    ensures ReadChars(Escape(s) + ([QUOTE] + t)) == Got(s, t)
  {
    if s == [] {
      assert Escape(s) + ([QUOTE] + t) == [QUOTE] + t;
      assert ([QUOTE] + t)[1..] == t;
    } else {
      ReadPrintedChars(s[1..], t);
      ReadEscaped(s[0], Escape(s[1..]) + ([QUOTE] + t));
      Assoc(EscapeByte(s[0]), Escape(s[1..]), [QUOTE] + t);
      assert s == [s[0]] + s[1..];
    }
  }

  lemma ReadPrintedString(s: Bytes, t: Bytes)
    ensures ReadValue(([QUOTE] + Escape(s) + [QUOTE]) + t) == Got(Str(s), t)
  {
    var text := ([QUOTE] + Escape(s) + [QUOTE]) + t;
    assert text[1..] == Escape(s) + ([QUOTE] + t);
    ReadPrintedChars(s, t);
  }

  /** The object a row stands for: column names and cells in order. */
  function Members(names: seq<Bytes>, row: seq<Bytes>): (r: seq<(Bytes, Json)>)
    requires |row| == |names|
    ensures |r| == |names| && forall i :: 0 <= i < |r| ==> r[i] == (names[i], Str(row[i]))
  {
    seq(|names|, i requires 0 <= i < |names| => (names[i], Str(row[i])))
  }

  function Rows(names: seq<Bytes>, rows: seq<seq<Bytes>>): (r: seq<Json>)
    requires IsTable(names, rows)
    ensures |r| == |rows| && forall i :: 0 <= i < |r| ==> r[i] == Obj(Members(names, rows[i]))
  {
    seq(|rows|, i requires 0 <= i < |rows| => Obj(Members(names, rows[i])))
  }

  /** One member, given how its parts are read. */
  lemma MemberParts(s: Bytes, name: Bytes, x: Bytes, v: Json, t: Bytes)
    requires ReadChars(s) == Got(name, [COLON] + x) && ReadValue(x) == Got(v, t)
    requires t != [] && t[0] in {COMMA, CLOSE_OBJECT}
    ensures ReadMembers([QUOTE] + s) ==
            if t[0] == CLOSE_OBJECT then Got([(name, v)], t[1..])
            else match ReadMembers(t[1..]) case Bad => Bad case Got(ms, rest) => Got([(name, v)] + ms, rest)
  {}

  /** One field, then the separator or the brace that follows it. */
  lemma ReadField(name: Bytes, cell: Bytes, t: Bytes)
    requires t != [] && t[0] in {COMMA, CLOSE_OBJECT}
    ensures ReadMembers(Field(name, cell) + t) ==
            if t[0] == CLOSE_OBJECT then Got([(name, Str(cell))], t[1..])
            else match ReadMembers(t[1..]) case Bad => Bad case Got(ms, rest) => Got([(name, Str(cell))] + ms, rest)
  {
    var x := ([QUOTE] + Escape(cell) + [QUOTE]) + t;
    FieldText(name, cell, t);
    ReadPrintedChars(name, [COLON] + x);
    ReadPrintedString(cell, t);
    MemberParts(Escape(name) + ([QUOTE] + ([COLON] + x)), name, x, Str(cell), t);
  }

  lemma FieldText(name: Bytes, cell: Bytes, t: Bytes)
    ensures Field(name, cell) + t
         == [QUOTE] + (Escape(name) + ([QUOTE] + ([COLON] + (([QUOTE] + Escape(cell) + [QUOTE]) + t))))
  {
    FieldParts(Escape(name), [QUOTE] + Escape(cell) + [QUOTE], t);
  }

  lemma FieldParts(key: Bytes, val: Bytes, t: Bytes)
    ensures ([QUOTE] + key + [QUOTE]) + ([COLON] + val) + t == [QUOTE] + (key + ([QUOTE] + ([COLON] + (val + t))))
  {}

  lemma JoinUnfold(items: seq<Bytes>, i: nat, z: Bytes)
    requires i < |items|
    ensures i > 0 ==> Join(items, i) + z == [COMMA] + (items[i] + (Join(items, i + 1) + z))
    ensures i == 0 ==> Join(items, i) + z == items[i] + (Join(items, i + 1) + z)
  {
    var item, rest := items[i], Join(items, i + 1);
    assert [] + (item + rest) == item + rest;
    Assoc([COMMA], item + rest, z);
    Assoc(item, rest, z);
  }

  function AfterField(m: (Bytes, Json), t: Bytes): Read<seq<(Bytes, Json)>>
    requires t != []
  {
    if t[0] == CLOSE_OBJECT then Got([m], t[1..])
    else match ReadMembers(t[1..]) case Bad => Bad case Got(ms, rest) => Got([m] + ms, rest)
  }

  /** What is read when `t` follows the text of a member. */
  function ReadBefore(text: Bytes, t: Bytes): Read<seq<(Bytes, Json)>> { ReadMembers(text + t) }

  /** The text reads as the member, whatever separator and text follow. */
  ghost predicate ReadsAsField(text: Bytes, m: (Bytes, Json)) {
    forall t: Bytes {:trigger ReadBefore(text, t)} ::
      t != [] && t[0] in {COMMA, CLOSE_OBJECT} ==> ReadBefore(text, t) == AfterField(m, t)
  }

  lemma FieldReads(name: Bytes, cell: Bytes)
    ensures ReadsAsField(Field(name, cell), (name, Str(cell)))
  {
    forall t: Bytes | t != [] && t[0] in {COMMA, CLOSE_OBJECT}
      ensures ReadBefore(Field(name, cell), t) == AfterField((name, Str(cell)), t)
    {
      ReadField(name, cell, t);
    }
  }

  ghost predicate AllFieldsRead(texts: seq<Bytes>, ms: seq<(Bytes, Json)>) {
    |texts| == |ms| && forall k :: 0 <= k < |texts| ==> ReadsAsField(texts[k], ms[k])
  }

  lemma LastField(text: Bytes, m: (Bytes, Json), t: Bytes)
    requires ReadsAsField(text, m)
    ensures ReadMembers(text + ([CLOSE_OBJECT] + t)) == Got([m], t)
  {
    var z := [CLOSE_OBJECT] + t;
    assert z[1..] == t;
    assert ReadBefore(text, z) == AfterField(m, z);
  }

  lemma NextField(text: Bytes, m: (Bytes, Json), next: Bytes, others: seq<(Bytes, Json)>, t: Bytes, whole: Bytes)
    requires ReadsAsField(text, m) && ReadMembers(next) == Got(others, t) && whole == text + ([COMMA] + next)
    ensures ReadMembers(whole) == Got([m] + others, t)
  {
    var z := [COMMA] + next;
    assert z[1..] == next;
    assert ReadBefore(text, z) == AfterField(m, z);
  }

  /** The items from `i` on, the first without its comma, and what closes and follows the list. */
  function From(items: seq<Bytes>, i: nat, z: Bytes): Bytes
    requires i < |items|
  {
    items[i] + (Join(items, i + 1) + z)
  }

  lemma FromStep(items: seq<Bytes>, i: nat, z: Bytes)
    requires i < |items|
    ensures From(items, i, z) == items[i] + if i + 1 < |items| then [COMMA] + From(items, i + 1, z) else z
  {}

  lemma SuffixCons<T>(s: seq<T>, i: nat)
    requires i < |s|
    ensures s[i..] == [s[i]] + s[i + 1..]
  {}

  lemma {:induction false} ReadFields(texts: seq<Bytes>, ms: seq<(Bytes, Json)>, i: nat, t: Bytes)
    requires AllFieldsRead(texts, ms) && i < |texts|
    ensures ReadMembers(From(texts, i, [CLOSE_OBJECT] + t)) == Got(ms[i..], t)
    decreases |texts| - i
  {
    assert ReadsAsField(texts[i], ms[i]);
    if i + 1 == |texts| {
      FromStep(texts, i, [CLOSE_OBJECT] + t);
      LastField(texts[i], ms[i], t);
      assert ms[i..] == [ms[i]];
    } else {
      var z := [CLOSE_OBJECT] + t;
      ReadFields(texts, ms, i + 1, t);
      FromStep(texts, i, z);
      NextField(texts[i], ms[i], From(texts, i + 1, z), ms[i + 1..], t, From(texts, i, z));
      SuffixCons(ms, i);
    }
  }

  lemma ObjectBody(body: Bytes, ms: seq<(Bytes, Json)>, t: Bytes)
    requires body != [] && body[0] == QUOTE && ReadMembers(body) == Got(ms, t)
    ensures ReadValue([OPEN_OBJECT] + body) == Got(Obj(ms), t)
  {}

  lemma EmptyObject(t: Bytes)
    ensures ReadValue([OPEN_OBJECT] + ([CLOSE_OBJECT] + t)) == Got(Obj([]), t)
  {}

  lemma ReadObject(names: seq<Bytes>, row: seq<Bytes>, t: Bytes)
    requires |row| == |names|
    ensures ReadValue(Object(names, row) + t) == Got(Obj(Members(names, row)), t)
  {
    var texts, z := FieldTexts(names, row), [CLOSE_OBJECT] + t;
    var fields := Join(texts, 0);
    assert Object(names, row) + t == [OPEN_OBJECT] + (fields + z) by {
      Assoc([OPEN_OBJECT], fields + [CLOSE_OBJECT], t);
      Assoc(fields, [CLOSE_OBJECT], t);
    }
    if names == [] {
      assert [] + z == z;
      EmptyObject(t);
    } else {
      JoinUnfold(texts, 0, z);
      forall k | 0 <= k < |names| ensures ReadsAsField(texts[k], Members(names, row)[k]) {
        FieldReads(names[k], row[k]);
      }
      ReadFields(texts, Members(names, row), 0, t);
      assert Members(names, row)[0..] == Members(names, row);
      assert texts[0][0] == QUOTE;
      ObjectBody(fields + z, Members(names, row), t);
    }
  }

  lemma LastItem(text: Bytes, v: Json, t: Bytes)
    requires ReadValue(text) == Got(v, [CLOSE_ARRAY] + t)
    ensures ReadItems(text) == Got([v], t)
  {}

  /** What is read when `t` follows the text of a value. */
  function ReadValueBefore(text: Bytes, t: Bytes): Read<Json> { ReadValue(text + t) }

  /** The text reads as the value, whatever follows. */
  ghost predicate ReadsAs(text: Bytes, v: Json) {
    forall t: Bytes {:trigger ReadValueBefore(text, t)} :: ReadValueBefore(text, t) == Got(v, t)
  }

  lemma ReadOne(text: Bytes, v: Json, tail: Bytes)
    requires ReadsAs(text, v)
    ensures ReadValue(text + tail) == Got(v, tail)
  {
    assert ReadValueBefore(text, tail) == Got(v, tail);
  }

  lemma NextItem(text: Bytes, v: Json, next: Bytes, others: seq<Json>, t: Bytes, whole: Bytes)
    requires ReadsAs(text, v) && ReadItems(next) == Got(others, t) && whole == text + ([COMMA] + next)
    ensures ReadItems(whole) == Got([v] + others, t)
  {
    var z := [COMMA] + next;
    ReadOne(text, v, z);
    assert z[1..] == next;
  }

  /** Every text reads as its value. */
  ghost predicate AllRead(texts: seq<Bytes>, vs: seq<Json>) {
    |texts| == |vs| && forall k :: 0 <= k < |texts| ==> ReadsAs(texts[k], vs[k])
  }

  /** A comma-separated list of texts reads as the list of their values. */
  lemma {:induction false} ReadJoined(texts: seq<Bytes>, vs: seq<Json>, i: nat)
    requires AllRead(texts, vs) && i < |texts|
    ensures ReadItems(From(texts, i, [CLOSE_ARRAY] + [])) == Got(vs[i..], [])
    decreases |texts| - i
  {
    var z := [CLOSE_ARRAY] + [];
    FromStep(texts, i, z);
    if i + 1 == |texts| {
      ReadOne(texts[i], vs[i], z);
      LastItem(texts[i] + z, vs[i], []);
      assert vs[i..] == [vs[i]];
    } else {
      ReadJoined(texts, vs, i + 1);
      NextItem(texts[i], vs[i], From(texts, i + 1, z), vs[i + 1..], [], From(texts, i, z));
      SuffixCons(vs, i);
    }
  }

  lemma ArrayBody(body: Bytes, items: seq<Json>)
    requires body != [] && body[0] == OPEN_OBJECT && ReadItems(body) == Got(items, [])
    ensures Parse([OPEN_ARRAY] + body) == Got(Arr(items), [])
  {}

  lemma EmptyArray()
    ensures Parse([OPEN_ARRAY] + [CLOSE_ARRAY]) == Got(Arr([]), [])
  {}

  lemma ParseItems(texts: seq<Bytes>, vs: seq<Json>, body: Bytes)
    requires AllRead(texts, vs) && texts != [] && texts[0] != [] && texts[0][0] == OPEN_OBJECT
    requires body == From(texts, 0, [CLOSE_ARRAY] + [])
    ensures Parse([OPEN_ARRAY] + body) == Got(Arr(vs), [])
  {
    ReadJoined(texts, vs, 0);
    assert vs[0..] == vs;
    ArrayBody(body, vs);
  }

  lemma ParseJoined(texts: seq<Bytes>, vs: seq<Json>)
    requires AllRead(texts, vs)
    requires forall k :: 0 <= k < |texts| ==> texts[k] != [] && texts[k][0] == OPEN_OBJECT
    ensures Parse([OPEN_ARRAY] + (Join(texts, 0) + [CLOSE_ARRAY])) == Got(Arr(vs), [])
  {
    var body := Join(texts, 0) + [CLOSE_ARRAY];
    if texts == [] {
      assert body == [CLOSE_ARRAY];
      EmptyArray();
    } else {
      assert [CLOSE_ARRAY] + [] == [CLOSE_ARRAY];
      JoinUnfold(texts, 0, [CLOSE_ARRAY]);
      ParseItems(texts, vs, body);
    }
  }

  /** For every table of byte strings, parsing the printed text gives back exactly the column
      names and cells, row by row and in order. */
  lemma PrintParseRoundTrip(names: seq<Bytes>, rows: seq<seq<Bytes>>)
    requires IsTable(names, rows)
    ensures Parse(Print(names, rows)) == Got(Arr(Rows(names, rows)), [])
  {
    var texts, vs := ObjectTexts(names, rows), Rows(names, rows);
    forall k | 0 <= k < |rows| ensures ReadsAs(texts[k], vs[k]) && texts[k] != [] && texts[k][0] == OPEN_OBJECT {
      forall t: Bytes ensures ReadValueBefore(texts[k], t) == Got(vs[k], t) { ReadObject(names, rows[k], t); }
    }
    ParseJoined(texts, vs);
  }

  lemma MembersAreInjective(names: seq<Bytes>, row: seq<Bytes>, names': seq<Bytes>, row': seq<Bytes>)
    requires |row| == |names| && |row'| == |names'| && Members(names, row) == Members(names', row')
    ensures names == names' && row == row'
  {
    var m, m' := Members(names, row), Members(names', row');
    assert |names| == |m| == |m'| == |names'|;
    forall j | 0 <= j < |names| ensures names[j] == names'[j] && row[j] == row'[j] { assert m[j] == m'[j]; }
  }

  /** Two tables that print the same text have the same rows, and the same columns as soon as
      there is a row to show them. */
  lemma PrinterIsInjective(names: seq<Bytes>, rows: seq<seq<Bytes>>, names': seq<Bytes>, rows': seq<seq<Bytes>>)
    requires IsTable(names, rows) && IsTable(names', rows') && Print(names, rows) == Print(names', rows')
    ensures rows == rows' && (rows != [] ==> names == names')
  {
    PrintParseRoundTrip(names, rows);
    PrintParseRoundTrip(names', rows');
    RowsAreInjective(names, rows, names', rows');
  }

  lemma RowsAreInjective(names: seq<Bytes>, rows: seq<seq<Bytes>>, names': seq<Bytes>, rows': seq<seq<Bytes>>)
    requires IsTable(names, rows) && IsTable(names', rows') && Rows(names, rows) == Rows(names', rows')
    ensures rows == rows' && (rows != [] ==> names == names')
  {
    var a, b := Rows(names, rows), Rows(names', rows');
    assert |rows| == |a| == |b| == |rows'|;
    forall i | 0 <= i < |rows| ensures rows[i] == rows'[i] {
      assert a[i] == b[i];
      MembersAreInjective(names, rows[i], names', rows'[i]);
    }
    if rows != [] {
      assert a[0] == b[0];
      MembersAreInjective(names, rows[0], names', rows'[0]);
    }
  }
}
