/**
 * JSON text as `json.dumps(..., separators=(",", ":"), ensure_ascii=True)` writes it, and a parser
 * for the grammar of RFC 8259 (sections 4, 5 and 7) restricted to integers.
 */
module JsonText {
  import opened Basics
  import opened Decimals

  /** A dictionary is a list of items: Python dictionaries remember insertion order. */
  datatype Json =
    | Null
    | Bool(b: bool)
    | Num(n: int)
    | Str(s: string)
    | Arr(items: seq<Json>)
    | Obj(fields: seq<Field>)

  datatype Field = Field(key: string, value: Json)

  // ---------------------------------------------------------------- printing

  function HexDigit(d: nat): (c: char)
    requires d < 16
  {
    if d < 10 then ('0' as int + d) as char else ('a' as int + d - 10) as char
  }

  /** The last `places` hexadecimal digits of `n`. */
  function Hex(n: nat, places: nat): (s: string)
    ensures |s| == places
  {
    if places == 0 then "" else Hex(n / 16, places - 1) + [HexDigit(n % 16)]
  }

  /** Everything outside printable ASCII is escaped; outside the BMP as a surrogate pair. */
  function EscapeChar(c: char): (s: string)
    ensures s != ""
  {
    var n := c as int;
    if c == '"' then "\\\""
    else if c == '\\' then "\\\\"
    else if n == 10 then "\\n"
    else if n == 13 then "\\r"
    else if n == 9 then "\\t"
    else if n == 12 then "\\f"
    else if n == 8 then "\\b"
    else if ' ' <= c <= '~' then [c]
    else if n < 0x10000 then "\\u" + Hex(n, 4)
    else "\\u" + Hex(0xD800 + (n - 0x10000) / 0x400, 4) + "\\u" + Hex(0xDC00 + (n - 0x10000) % 0x400, 4)
  }

  ghost predicate PrintableAscii(s: string) { forall i :: 0 <= i < |s| ==> ' ' <= s[i] <= '~' }

  /** The seven two-character escapes: a backslash and this letter. */
  const SHORT_ESCAPES: map<char, char> :=
    map['"' := '"', '\\' := '\\', '\n' := 'n', '\r' := 'r', '\t' := 't', '\U{0C}' := 'f', '\U{08}' := 'b']

  lemma {:induction false} HexIsAscii(n: nat, places: nat)
    ensures forall i :: 0 <= i < places ==> '0' <= Hex(n, places)[i] <= '9' || 'a' <= Hex(n, places)[i] <= 'f'
  {
    if places > 0 {
      HexIsAscii(n / 16, places - 1);
    }
  }

  lemma LongEscape(c: char)
    requires c !in SHORT_ESCAPES && !(' ' <= c <= '~')
    ensures PrintableAscii(EscapeChar(c)) && |EscapeChar(c)| == if c as int < 0x10000 then 6 else 12
    ensures forall i :: 0 <= i < |EscapeChar(c)| ==> !('A' <= EscapeChar(c)[i] <= 'F')
  {
    var n := c as int;
    if n < 0x10000 {
      HexIsAscii(n, 4);
    } else {
      HexIsAscii(0xD800 + (n - 0x10000) / 0x400, 4);
      HexIsAscii(0xDC00 + (n - 0x10000) % 0x400, 4);
    }
  }

  /**
   * Of the spellings the grammar allows, the one chosen: a short escape where there is one, else the character
   * itself if it is printable ASCII, else four or twice four small hexadecimal digits.
   */
  lemma EscapeIs(c: char)
    ensures c in SHORT_ESCAPES ==> EscapeChar(c) == ['\\', SHORT_ESCAPES[c]]
    ensures c !in SHORT_ESCAPES && ' ' <= c <= '~' ==> EscapeChar(c) == [c]
    ensures c !in SHORT_ESCAPES && !(' ' <= c <= '~') ==>
              && PrintableAscii(EscapeChar(c)) && |EscapeChar(c)| == (if c as int < 0x10000 then 6 else 12)
              && forall i :: 0 <= i < |EscapeChar(c)| ==> !('A' <= EscapeChar(c)[i] <= 'F')
  {
    if c !in SHORT_ESCAPES && !(' ' <= c <= '~') {
      LongEscape(c);
    }
  }

  function Escape(s: string): string {
    if s == "" then "" else EscapeChar(s[0]) + Escape(s[1..])
  }

  function Quote(s: string): string { "\"" + Escape(s) + "\"" }

  function PrintInt(n: int): (s: string)
    ensures s != ""
  {
    if n < 0 then "-" + Digits(-n) else Digits(n)
  }

  function Print(v: Json): string
    decreases v, 1
  {
    match v
    case Null => "null"
    case Bool(b) => if b then "true" else "false"
    case Num(n) => PrintInt(n)
    case Str(s) => Quote(s)
    case Arr(items) => "[" + PrintItems(items)
    case Obj(fields) => "{" + PrintFields(fields)
  }

  function PrintItems(items: seq<Json>): string
    decreases items, 0
  {
    if items == [] then "]"
    else Print(items[0]) + (if |items| == 1 then "" else ",") + PrintItems(items[1..])
  }

  function PrintFields(fields: seq<Field>): string
    decreases fields, 0
  {
    if fields == [] then "}"
    else Quote(fields[0].key) + ":" + Print(fields[0].value) + (if |fields| == 1 then "" else ",") + PrintFields(fields[1..])
  }

  // ----------------------------------------------------------------- parsing

  function HexDigitValue(c: char): Option<nat> {
    if '0' <= c <= '9' then Some(c as int - '0' as int)
    else if 'a' <= c <= 'f' then Some(c as int - 'a' as int + 10)
    else if 'A' <= c <= 'F' then Some(c as int - 'A' as int + 10)
    else None
  }

  function HexValue(s: string): Option<nat> {
    if s == "" then Some(0)
    else
      match (HexValue(s[..|s| - 1]), HexDigitValue(s[|s| - 1]))
      case (Some(high), Some(low)) => Some(16 * high + low)
      case _ => None
  }

  /** A `\uXXXX` escape after its first two characters: the code unit. */
  function CodeUnit(s: string): Option<nat> {
    if |s| >= 6 && s[0] == '\\' && s[1] == 'u' then HexValue(s[2..6]) else None
  }

  /** One character of a string literal and how many characters of text it took. */
  function NextChar(s: string): (r: Option<(char, nat)>)
    ensures r.Some? ==> 0 < r.value.1 <= |s|
  {
    if s == "" || s[0] == '"' || s[0] < ' ' then None
    else if s[0] != '\\' then Some((s[0], 1))
    else if |s| < 2 then None
    else if s[1] == 'u' then
      match CodeUnit(s)
      case None => None
      case Some(u) =>
        if 0xD800 <= u < 0xDC00 then
          match CodeUnit(s[6..])
          case Some(w) =>
            if 0xDC00 <= w < 0xE000 then Some(((0x10000 + (u - 0xD800) * 0x400 + (w - 0xDC00)) as char, 12)) else None
          case None => None
        else if 0xDC00 <= u < 0xE000 then None
        else if u < 0x10000 then Some((u as char, 6))
        else None
    else
      match s[1]
      case '"' => Some(('"', 2))
      case '\\' => Some(('\\', 2))
      case '/' => Some(('/', 2))
      case 'n' => Some((10 as char, 2))
      case 'r' => Some((13 as char, 2))
      case 't' => Some((9 as char, 2))
      case 'f' => Some((12 as char, 2))
      case 'b' => Some((8 as char, 2))
      case _ => None
  }

  /** The rest of a string literal, up to and including its closing quote. */
  function ParseChars(s: string): (r: Option<(string, string)>)
    ensures r.Some? ==> |r.value.1| < |s|
    decreases |s|
  {
    if s != "" && s[0] == '"' then Some(("", s[1..]))
    else
      match NextChar(s)
      case None => None
      case Some((c, k)) =>
        match ParseChars(s[k..])
        case None => None
        case Some((cs, rest)) => Some(([c] + cs, rest))
  }

  /** How many digits the text starts with. */
  function DigitRun(s: string): (k: nat)
    ensures k <= |s| && forall i :: 0 <= i < k ==> IsDigit(s[i])
  {
    if s == "" || !IsDigit(s[0]) then 0 else 1 + DigitRun(s[1..])
  }

  function ParseInt(s: string): (r: Option<(Json, string)>)
    ensures r.Some? ==> |r.value.1| < |s|
  {
    var negative := s != "" && s[0] == '-';
    var t := if negative then s[1..] else s;
    var k := DigitRun(t);
    if k == 0 || (k > 1 && t[0] == '0') then None
    else
      var m: int := Value(t[..k]);
      Some((Num(if negative then -m else m), t[k..]))
  }

  function ParseWord(word: string, v: Json, s: string): (r: Option<(Json, string)>)
    requires word != ""
    ensures r.Some? ==> |r.value.1| < |s|
  {
    if word <= s then Some((v, s[|word|..])) else None
  }

  function ParseValue(s: string): (r: Option<(Json, string)>)
    ensures r.Some? ==> |r.value.1| < |s|
    decreases |s|, 0
  {
    if s == "" then None
    else if s[0] == 'n' then ParseWord("null", Null, s)
    else if s[0] == 't' then ParseWord("true", Bool(true), s)
    else if s[0] == 'f' then ParseWord("false", Bool(false), s)
    else if s[0] == '"' then
      match ParseChars(s[1..])
      case None => None
      case Some((cs, rest)) => Some((Str(cs), rest))
    else if s[0] == '[' then
      if |s| > 1 && s[1] == ']' then Some((Arr([]), s[2..]))
      else
        match ParseItems(s[1..])
        case None => None
        case Some((items, rest)) => Some((Arr(items), rest))
    else if s[0] == '{' then
      if |s| > 1 && s[1] == '}' then Some((Obj([]), s[2..]))
      else
        match ParseFields(s[1..])
        case None => None
        case Some((fields, rest)) => Some((Obj(fields), rest))
    else ParseInt(s)
  }

  function ParseItems(s: string): (r: Option<(seq<Json>, string)>)
    ensures r.Some? ==> |r.value.1| < |s|
    decreases |s|, 1
  {
    match ParseValue(s)
    case None => None
    case Some((v, t)) =>
      if t == "" then None
      else if t[0] == ']' then Some(([v], t[1..]))
      else if t[0] != ',' then None
      else
        match ParseItems(t[1..])
        case None => None
        case Some((vs, rest)) => Some(([v] + vs, rest))
  }

  function ParseFields(s: string): (r: Option<(seq<Field>, string)>)
    ensures r.Some? ==> |r.value.1| < |s|
    decreases |s|, 1
  {
    if s == "" || s[0] != '"' then None
    else
      match ParseChars(s[1..])
      case None => None
      case Some((key, afterKey)) =>
        if afterKey == "" || afterKey[0] != ':' then None
        else
          match ParseValue(afterKey[1..])
          case None => None
          case Some((v, t)) =>
            if t == "" then None
            else if t[0] == '}' then Some(([Field(key, v)], t[1..]))
            else if t[0] != ',' then None
            else
              match ParseFields(t[1..])
              case None => None
              case Some((fs, rest)) => Some(([Field(key, v)] + fs, rest))
  }

  // -------------------------------------------------------------- round trip

  lemma HexDigitRoundTrip(d: nat)
    requires d < 16
    ensures HexDigitValue(HexDigit(d)) == Some(d)
  {
  }

  function Power16(k: nat): nat { if k == 0 then 1 else 16 * Power16(k - 1) }

  lemma {:induction false} HexRoundTrip(n: nat, places: nat)
    requires n < Power16(places)
    ensures HexValue(Hex(n, places)) == Some(n)
  {
    if places > 0 {
      HexRoundTrip(n / 16, places - 1);
      HexDigitRoundTrip(n % 16);
      assert Hex(n, places)[..places - 1] == Hex(n / 16, places - 1);
    }
  }

  lemma CodeUnitRoundTrip(n: nat, t: string)
    requires n < 0x10000
    ensures CodeUnit("\\u" + Hex(n, 4) + t) == Some(n)
  {
    assert ("\\u" + Hex(n, 4) + t)[2..6] == Hex(n, 4);
    assert Power16(4) == 0x10000;
    HexRoundTrip(n, 4);
  }

  /** The parser takes back exactly the characters one escape wrote. */
  lemma NextCharInvertsEscape(c: char, t: string)
    ensures NextChar(EscapeChar(c) + t) == Some((c, |EscapeChar(c)|))
  {
    var n := c as int;
    if c == '"' || c == '\\' || n in {8, 9, 10, 12, 13} || ' ' <= c <= '~' {
    } else if n < 0x10000 {
      CodeUnitRoundTrip(n, t);
    } else {
      var hi, lo := 0xD800 + (n - 0x10000) / 0x400, 0xDC00 + (n - 0x10000) % 0x400;
      var low := "\\u" + Hex(lo, 4) + t;
      assert EscapeChar(c) + t == "\\u" + Hex(hi, 4) + low;
      CodeUnitRoundTrip(hi, low);
      CodeUnitRoundTrip(lo, t);
      assert ("\\u" + Hex(hi, 4) + low)[6..] == low;
    }
  }

  lemma {:induction false} CharsRoundTrip(s: string, rest: string)
    ensures ParseChars(Escape(s) + "\"" + rest) == Some((s, rest))
  {
    var text := Escape(s) + "\"" + rest;
    if s == "" {
      assert text == "\"" + rest;
    } else {
      var tail := Escape(s[1..]) + "\"" + rest;
      assert text == EscapeChar(s[0]) + tail;
      NextCharInvertsEscape(s[0], tail);
      assert text[|EscapeChar(s[0])|..] == tail;
      CharsRoundTrip(s[1..], rest);
      assert [s[0]] + s[1..] == s;
      assert text[0] != '"';
    }
  }

  /** What may follow a value inside a larger text. */
  predicate Delimited(rest: string) { rest == "" || rest[0] in ",]}" }

  lemma {:induction false} DigitRunOfDigits(s: string, rest: string)
    requires forall i :: 0 <= i < |s| ==> IsDigit(s[i])
    requires Delimited(rest)
    ensures DigitRun(s + rest) == |s|
  {
    if s != "" {
      DigitRunOfDigits(s[1..], rest);
      assert (s + rest)[1..] == s[1..] + rest;
    }
  }

  lemma {:induction false} NoLeadingZero(n: nat)
    requires n >= 10
    ensures Digits(n)[0] != '0'
  {
    if n >= 100 {
      NoLeadingZero(n / 10);
    }
  }

  lemma IntRoundTrip(n: int, rest: string)
    requires Delimited(rest)
    ensures ParseInt(PrintInt(n) + rest) == Some((Num(n), rest))
  {
    var m := if n < 0 then -n else n;
    var t := Digits(m) + rest;
    DigitRunOfDigits(Digits(m), rest);
    ValueOfDigits(m);
    if m >= 10 {
      NoLeadingZero(m);
    }
    assert t[..|Digits(m)|] == Digits(m) && t[|Digits(m)|..] == rest;
    if n < 0 {
      assert (PrintInt(n) + rest)[1..] == t;
    }
  }

  /** The first character of a value tells the parser which branch to take. */
  lemma FirstChar(v: Json)
    ensures Print(v) != "" && Print(v)[0] !in ",]}"
    ensures v.Num? ==> Print(v)[0] == '-' || IsDigit(Print(v)[0])
  {
  }

  lemma OpenArray(tail: string, items: seq<Json>, rest: string)
    requires tail != "" && tail[0] != ']' && ParseItems(tail) == Some((items, rest))
    ensures ParseValue("[" + tail) == Some((Arr(items), rest))
  {
    assert ("[" + tail)[1..] == tail;
  }

  lemma OpenObject(tail: string, fields: seq<Field>, rest: string)
    requires tail != "" && tail[0] != '}' && ParseFields(tail) == Some((fields, rest))
    ensures ParseValue("{" + tail) == Some((Obj(fields), rest))
  {
    assert ("{" + tail)[1..] == tail;
  }

  /** Parsing inverts printing, in any context that delimits the value. */
  lemma {:induction false} ValueRoundTrip(v: Json, rest: string)
    requires Delimited(rest)
    ensures ParseValue(Print(v) + rest) == Some((v, rest))
    decreases v, 1
  {
    match v
    case Arr(items) => ArrayRoundTrip(items, rest);
    case Obj(fields) => ObjectRoundTrip(fields, rest);
    case Num(n) => NumRoundTrip(n, rest);
    case Str(s) => StrRoundTrip(s, rest);
    case _ => WordRoundTrip(v, rest);
  }

  lemma WordRoundTrip(v: Json, rest: string)
    requires v.Null? || v.Bool?
    ensures ParseValue(Print(v) + rest) == Some((v, rest))
  {
    assert (Print(v) + rest)[|Print(v)|..] == rest;
  }

  lemma NumRoundTrip(n: int, rest: string)
    requires Delimited(rest)
    ensures ParseValue(PrintInt(n) + rest) == Some((Num(n), rest))
  {
    IntRoundTrip(n, rest);
    assert PrintInt(n)[0] == '-' || IsDigit(PrintInt(n)[0]);
  }

  lemma StrRoundTrip(s: string, rest: string)
    ensures ParseValue(Quote(s) + rest) == Some((Str(s), rest))
  {
    assert (Quote(s) + rest)[1..] == Escape(s) + "\"" + rest;
    CharsRoundTrip(s, rest);
  }

  lemma {:induction false} ArrayRoundTrip(items: seq<Json>, rest: string)
    ensures ParseValue("[" + PrintItems(items) + rest) == Some((Arr(items), rest))
    decreases items, 1
  {
    var tail := PrintItems(items) + rest;
    assert "[" + PrintItems(items) + rest == "[" + tail;
    if items == [] {
      assert ("[" + tail)[2..] == rest;
    } else {
      FirstChar(items[0]);
      assert tail[0] == Print(items[0])[0];
      ItemsRoundTrip(items, rest);
      OpenArray(tail, items, rest);
    }
  }

  lemma {:induction false} ObjectRoundTrip(fields: seq<Field>, rest: string)
    ensures ParseValue("{" + PrintFields(fields) + rest) == Some((Obj(fields), rest))
    decreases fields, 1
  {
    var tail := PrintFields(fields) + rest;
    assert "{" + PrintFields(fields) + rest == "{" + tail;
    if fields == [] {
      assert ("{" + tail)[2..] == rest;
    } else {
      FieldsRoundTrip(fields, rest);
      OpenObject(tail, fields, rest);
    }
  }

  lemma MoreItems(text: string, v: Json, tail: string, more: seq<Json>, rest: string)
    requires ParseValue(text) == Some((v, "," + tail)) && ParseItems(tail) == Some((more, rest))
    ensures ParseItems(text) == Some(([v] + more, rest))
  {
    assert ("," + tail)[1..] == tail;
  }

  lemma LastItem(text: string, v: Json, rest: string)
    requires ParseValue(text) == Some((v, "]" + rest))
    ensures ParseItems(text) == Some(([v], rest))
  {
    assert ("]" + rest)[1..] == rest;
  }

  lemma SplitItems(v: Json, more: seq<Json>, rest: string)
    ensures PrintItems([v] + more) + rest == Print(v) + (if more == [] then "]" + rest else "," + (PrintItems(more) + rest))
  {
    assert ([v] + more)[1..] == more;
    if more == [] {
      assert PrintItems(more) == "]";
    }
  }

  lemma {:induction false} ItemsRoundTrip(items: seq<Json>, rest: string)
    requires items != []
    ensures ParseItems(PrintItems(items) + rest) == Some((items, rest))
    decreases items, 0
  {
    var v, more, text := items[0], items[1..], PrintItems(items) + rest;
    assert items == [v] + more;
    SplitItems(v, more, rest);
    if more == [] {
      ValueRoundTrip(v, "]" + rest);
      assert items == [v];
      LastItem(text, v, rest);
    } else {
      var tail := PrintItems(more) + rest;
      ValueRoundTrip(v, "," + tail);
      ItemsRoundTrip(more, rest);
      MoreItems(text, v, tail, more, rest);
    }
  }

  lemma MoreFields(key: string, body: string, v: Json, tail: string, more: seq<Field>, rest: string)
    requires ParseValue(body) == Some((v, "," + tail)) && ParseFields(tail) == Some((more, rest))
    ensures ParseFields(Quote(key) + ":" + body) == Some(([Field(key, v)] + more, rest))
  {
    OpenField(key, body);
    assert ("," + tail)[1..] == tail;
  }

  lemma LastField(key: string, body: string, v: Json, rest: string)
    requires ParseValue(body) == Some((v, "}" + rest))
    ensures ParseFields(Quote(key) + ":" + body) == Some(([Field(key, v)], rest))
  {
    OpenField(key, body);
    assert ("}" + rest)[1..] == rest;
  }

  lemma OpenField(key: string, body: string)
    ensures var text := Quote(key) + ":" + body;
            text[0] == '"' && ParseChars(text[1..]) == Some((key, ":" + body)) && (":" + body)[1..] == body
  {
    assert (Quote(key) + ":" + body)[1..] == Escape(key) + "\"" + (":" + body);
    CharsRoundTrip(key, ":" + body);
  }

  lemma SplitFields(key: string, v: Json, more: seq<Field>, rest: string)
    ensures PrintFields([Field(key, v)] + more) + rest
         == Quote(key) + ":" + (Print(v) + (if more == [] then "}" + rest else "," + (PrintFields(more) + rest)))
  {
    assert ([Field(key, v)] + more)[1..] == more;
    if more == [] {
      assert PrintFields(more) == "}";
    }
  }

  lemma {:induction false} FieldsRoundTrip(fields: seq<Field>, rest: string)
    requires fields != []
    ensures ParseFields(PrintFields(fields) + rest) == Some((fields, rest))
    decreases fields, 0
  {
    var Field(key, v) := fields[0];
    var more := fields[1..];
    assert fields == [Field(key, v)] + more;
    SplitFields(key, v, more, rest);
    if more == [] {
      ValueRoundTrip(v, "}" + rest);
      assert fields == [Field(key, v)];
      LastField(key, Print(v) + ("}" + rest), v, rest);
    } else {
      var tail := PrintFields(more) + rest;
      ValueRoundTrip(v, "," + tail);
      FieldsRoundTrip(more, rest);
      MoreFields(key, Print(v) + ("," + tail), v, tail, more, rest);
    }
  }

  /** The text determines the value, down to the order of the items. */
  lemma PrintInjective(v: Json, w: Json)
    requires Print(v) == Print(w)
    ensures v == w
  {
    ValueRoundTrip(v, "");
    ValueRoundTrip(w, "");
    assert Print(v) + "" == Print(w) + "";
  }
}
