/**
  JSON text as produced by `JSON.stringify` and read by `JSON.parse`, restricted to what
  the kernel gateway exchanges: objects, arrays, strings, booleans, null and integers.
  The codec signs and frames JSON text, so the model needs a concrete encoding and a
  parser that inverts it; `ParseStringify` is that inverse property.
*/
module Json {
  import opened Wrappers

  datatype JsonValue =
    | JNull
    | JBool(b: bool)
    | JNum(n: int)
    | JStr(s: string)
    | JArr(items: seq<JsonValue>)
    | JObj(members: seq<Member>)

  /** One `"key":value` pair of an object, in insertion order. */
  datatype Member = Member(key: string, value: JsonValue)

  /** The empty object `{}`. */
  const EmptyObject: JsonValue := JObj([])

  /**
    The value stored under `key` in a list of members: the last one, as `JSON.parse` lets a
    later duplicate key overwrite an earlier one.
  */
  function Lookup(members: seq<Member>, key: string): Option<JsonValue>
  {
    if |members| == 0 then None
    else if members[|members| - 1].key == key then Some(members[|members| - 1].value)
    else Lookup(members[..|members| - 1], key)
  }

  /** The property `key` of an object value (`v[key]`); `None` for a missing key or a non-object. */
  function Get(v: JsonValue, key: string): Option<JsonValue>
  {
    if v.JObj? then Lookup(v.members, key) else None
  }

  predicate IsDigit(c: char) { '0' <= c <= '9' }

  /** The four characters JSON allows between tokens. */
  predicate IsWs(c: char) { c == ' ' || c == '\t' || c == '\n' || c == '\r' }

  /** The characters a JSON value can start with. */
  predicate StartsValue(c: char) {
    c == 'n' || c == 't' || c == 'f' || c == '"' || c == '[' || c == '{' || c == '-' || IsDigit(c)
  }

  // ---------------------------------------------------------------------------
  // Serialisation (JSON.stringify)
  // ---------------------------------------------------------------------------

  function DigitChar(d: nat): (c: char)
    requires d < 10
    ensures IsDigit(c) && c as int - '0' as int == d
  {
    ('0' as int + d) as char
  }

  /** Decimal notation of a natural number, without leading zeros. */
  function NatToString(n: nat): (r: string)
    ensures |r| > 0
    ensures forall i :: 0 <= i < |r| ==> IsDigit(r[i])
    ensures r[0] == '0' ==> n == 0 && |r| == 1
  {
    if n < 10 then [DigitChar(n)] else NatToString(n / 10) + [DigitChar(n % 10)]
  }

  function IntToString(n: int): (r: string)
    ensures |r| > 0 && (r[0] == '-' || IsDigit(r[0]))
  {
    if n < 0 then "-" + NatToString(-n) else NatToString(n)
  }

  function HexDigit(d: nat): char
    requires d < 16
  {
    "0123456789abcdef"[d]
  }

  /** How `JSON.stringify` writes one character inside a string literal. */
  function EscapeChar(c: char): (r: string)
    ensures |r| > 0 && r[0] != '"'
  {
    if c == '"' then "\\\""
    else if c == '\\' then "\\\\"
    else if c == '\U{0008}' then "\\b"
    else if c == '\U{000C}' then "\\f"
    else if c == '\n' then "\\n"
    else if c == '\r' then "\\r"
    else if c == '\t' then "\\t"
    else if c < ' ' then "\\u00" + [HexDigit(c as int / 16), HexDigit(c as int % 16)]
    else [c]
  }

  function EscapeString(s: string): string
  {
    if |s| == 0 then "" else EscapeChar(s[0]) + EscapeString(s[1..])
  }

  /** A string literal: the escaped characters between double quotes. */
  function Quote(s: string): string
  {
    "\"" + EscapeString(s) + "\""
  }

  /** JSON text of a value, with no whitespace between tokens (as `JSON.stringify(v)`). */
  function Stringify(v: JsonValue): (r: string)
    ensures |r| > 0 && StartsValue(r[0])
  {
    match v
    case JNull => "null"
    case JBool(b) => if b then "true" else "false"
    case JNum(n) => IntToString(n)
    case JStr(s) => Quote(s)
    case JArr(items) => "[" + StringifyItems(items) + "]"
    case JObj(members) => "{" + StringifyMembers(members) + "}"
  }

  /** The comma-separated elements of an array. */
  function StringifyItems(items: seq<JsonValue>): (r: string)
    ensures |items| > 0 ==> |r| > 0 && StartsValue(r[0])
  {
    if |items| == 0 then ""
    else if |items| == 1 then Stringify(items[0])
    else Stringify(items[0]) + "," + StringifyItems(items[1..])
  }

  /** The comma-separated `"key":value` pairs of an object. */
  function StringifyMembers(members: seq<Member>): (r: string)
    ensures |members| > 0 ==> |r| > 0 && r[0] == '"'
  {
    if |members| == 0 then ""
    else if |members| == 1 then StringifyMember(members[0])
    else StringifyMember(members[0]) + "," + StringifyMembers(members[1..])
  }

  /** One `"key":value` pair. */
  function StringifyMember(m: Member): (r: string)
    ensures |r| > 0 && r[0] == '"'
  {
    Quote(m.key) + ":" + Stringify(m.value)
  }

  // ---------------------------------------------------------------------------
  // Parsing (JSON.parse)
  // ---------------------------------------------------------------------------

  function SkipWs(s: string): (r: string)
    ensures |r| <= |s|
    ensures r == [] || !IsWs(r[0])
    ensures |s| > 0 && !IsWs(s[0]) ==> r == s
  {
    if |s| > 0 && IsWs(s[0]) then SkipWs(s[1..]) else s
  }

  function HexValue(c: char): Option<nat>
  {
    if '0' <= c <= '9' then var d: nat := c as int - '0' as int; Some(d)
    else if 'a' <= c <= 'f' then var d: nat := c as int - 'a' as int + 10; Some(d)
    else if 'A' <= c <= 'F' then var d: nat := c as int - 'A' as int + 10; Some(d)
    else None
  }

  /** The UTF-16 code unit written as four hexadecimal digits at the start of `s`. */
  function Hex4(s: string): (r: Option<nat>)
    ensures r.Some? ==> |s| >= 4 && r.value < 0x1_0000
  {
    if |s| < 4 then None
    else
      var h1, h2, h3, h4 := HexValue(s[0]), HexValue(s[1]), HexValue(s[2]), HexValue(s[3]);
      if h1.None? || h2.None? || h3.None? || h4.None? then None
      else Some(h1.value * 4096 + h2.value * 256 + h3.value * 16 + h4.value)
  }

  /** The character a high surrogate and a low surrogate encode together in UTF-16. */
  function Combine(high: nat, low: nat): (c: char)
    requires 0xD800 <= high < 0xDC00 && 0xDC00 <= low < 0xE000
    ensures 0x1_0000 <= c as int
  {
    var v := 0x1_0000 + (high - 0xD800) * 0x400 + (low - 0xDC00);
    assert v < 0x11_0000 by {
      assert (high - 0xD800) * 0x400 <= 0x3FF * 0x400;
    }
    v as char
  }

  /**
    Reads the escape sequence that follows a backslash. A `\u` escape of a high surrogate
    followed by a `\u` escape of a low surrogate is the one character the pair encodes.
  */
  function ParseEscape(s: string): (r: Result<(char, string)>)
    ensures r.Ok? ==> |r.value.1| < |s|
  {
    if |s| == 0 then Err("unterminated escape")
    else if s[0] == '"' then Ok(('"', s[1..]))
    else if s[0] == '\\' then Ok(('\\', s[1..]))
    else if s[0] == '/' then Ok(('/', s[1..]))
    else if s[0] == 'b' then Ok(('\U{0008}', s[1..]))
    else if s[0] == 'f' then Ok(('\U{000C}', s[1..]))
    else if s[0] == 'n' then Ok(('\n', s[1..]))
    else if s[0] == 'r' then Ok(('\r', s[1..]))
    else if s[0] == 't' then Ok(('\t', s[1..]))
    else if s[0] == 'u' then
      var code := Hex4(s[1..]);
      if code.None? then Err("bad unicode escape")
      else if code.value < 0xD800 || 0xE000 <= code.value then Ok((code.value as char, s[5..]))
      else ParseLowSurrogate(code.value, s[5..])
    else Err("bad escape")
  }

  /** After the escape of a high surrogate, the escape of its low surrogate. */
  function ParseLowSurrogate(high: nat, s: string): (r: Result<(char, string)>)
    ensures r.Ok? ==> |r.value.1| < |s|
  {
    if high < 0xD800 || 0xDC00 <= high || |s| < 2 || s[0] != '\\' || s[1] != 'u' then Err("lone surrogate")
    else
      var low := Hex4(s[2..]);
      if low.None? || low.value < 0xDC00 || 0xE000 <= low.value then Err("lone surrogate")
      else Ok((Combine(high, low.value), s[6..]))
  }

  /** Reads the rest of a string literal whose opening quote has been consumed. */
  function ParseString(s: string): (r: Result<(string, string)>)
    ensures r.Ok? ==> |r.value.1| < |s|
  {
    if |s| == 0 then Err("unterminated string")
    else if s[0] == '"' then Ok(([], s[1..]))
    else if s[0] == '\\' then
      var e := ParseEscape(s[1..]);
      if e.Err? then Err(e.error)
      else
        var tail := ParseString(e.value.1);
        if tail.Err? then tail else Ok(([e.value.0] + tail.value.0, tail.value.1))
    else if s[0] < ' ' then Err("control character in string")
    else
      var tail := ParseString(s[1..]);
      if tail.Err? then tail else Ok(([s[0]] + tail.value.0, tail.value.1))
  }

  /** Length of the longest prefix of decimal digits. */
  function DigitRun(s: string): (k: nat)
    ensures k <= |s|
    ensures forall i :: 0 <= i < k ==> IsDigit(s[i])
    ensures k < |s| ==> !IsDigit(s[k])
  {
    if |s| > 0 && IsDigit(s[0]) then 1 + DigitRun(s[1..]) else 0
  }

  function DigitsValue(ds: string): nat
    requires forall i :: 0 <= i < |ds| ==> IsDigit(ds[i])
  {
    if |ds| == 0 then 0
    else
      assert IsDigit(ds[|ds| - 1]);
      DigitsValue(ds[..|ds| - 1]) * 10 + (ds[|ds| - 1] as int - '0' as int)
  }

  /** A run of digits without leading zeros; what follows it is left unread. */
  function ParseDigits(u: string): (r: Result<(nat, string)>)
    ensures r.Ok? ==> |r.value.1| < |u|
  {
    var k := DigitRun(u);
    if k == 0 then Err("digit expected")
    else if u[0] == '0' && k > 1 then Err("leading zero")
    else Ok((DigitsValue(u[..k]), u[k..]))
  }

  /** An optionally negative integer; a fraction or exponent is left unread. */
  function ParseNumber(t: string): (r: Result<(JsonValue, string)>)
    ensures r.Ok? ==> |r.value.1| < |t|
  {
    if |t| == 0 then Err("number expected")
    else
      var neg := t[0] == '-';
      var p := ParseDigits(if neg then t[1..] else t);
      if p.Err? then Err(p.error)
      else Ok((JNum(if neg then -(p.value.0 as int) else p.value.0), p.value.1))
  }

  /** Reads one value (after optional whitespace) and returns it with the unread rest. */
  function ParseValue(s: string): (r: Result<(JsonValue, string)>)
    ensures r.Ok? ==> |r.value.1| < |s|
    decreases |s|, 0
  {
    var t := SkipWs(s);
    if |t| == 0 then Err("value expected")
    else if t[0] == 'n' then
      if |t| >= 4 && t[1] == 'u' && t[2] == 'l' && t[3] == 'l' then Ok((JNull, t[4..])) else Err("bad literal")
    else if t[0] == 't' then
      if |t| >= 4 && t[1] == 'r' && t[2] == 'u' && t[3] == 'e' then Ok((JBool(true), t[4..])) else Err("bad literal")
    else if t[0] == 'f' then
      if |t| >= 5 && t[1] == 'a' && t[2] == 'l' && t[3] == 's' && t[4] == 'e' then Ok((JBool(false), t[5..]))
      else Err("bad literal")
    else if t[0] == '"' then
      var p := ParseString(t[1..]);
      if p.Err? then Err(p.error) else Ok((JStr(p.value.0), p.value.1))
    else if t[0] == '[' then ParseArray(t[1..])
    else if t[0] == '{' then ParseObject(t[1..])
    else if t[0] == '-' || IsDigit(t[0]) then ParseNumber(t)
    else Err("unexpected character")
  }

  /** The rest of an array whose `[` has been consumed. */
  function ParseArray(s: string): (r: Result<(JsonValue, string)>)
    ensures r.Ok? ==> |r.value.1| < |s|
    decreases |s|, 2
  {
    var t := SkipWs(s);
    if |t| > 0 && t[0] == ']' then Ok((JArr([]), t[1..]))
    else
      var p := ParseItems(t);
      if p.Err? then Err(p.error) else Ok((JArr(p.value.0), p.value.1))
  }

  /** One or more comma-separated elements and the closing `]`. */
  function ParseItems(s: string): (r: Result<(seq<JsonValue>, string)>)
    ensures r.Ok? ==> |r.value.1| < |s|
    decreases |s|, 1
  {
    var v := ParseValue(s);
    if v.Err? then Err(v.error)
    else
      var w := SkipWs(v.value.1);
      if |w| == 0 then Err("unterminated array")
      else if w[0] == ']' then Ok(([v.value.0], w[1..]))
      else if w[0] == ',' then
        var more := ParseItems(w[1..]);
        if more.Err? then more else Ok(([v.value.0] + more.value.0, more.value.1))
      else Err("',' or ']' expected")
  }

  /** The rest of an object whose `{` has been consumed. */
  function ParseObject(s: string): (r: Result<(JsonValue, string)>)
    ensures r.Ok? ==> |r.value.1| < |s|
    decreases |s|, 3
  {
    var t := SkipWs(s);
    if |t| > 0 && t[0] == '}' then Ok((JObj([]), t[1..]))
    else
      var p := ParseMembers(t);
      if p.Err? then Err(p.error) else Ok((JObj(p.value.0), p.value.1))
  }

  /** One `"key":value` pair (after optional whitespace). */
  function ParseMember(s: string): (r: Result<(Member, string)>)
    ensures r.Ok? ==> |r.value.1| < |s|
    decreases |s|, 1
  {
    var t := SkipWs(s);
    if |t| == 0 || t[0] != '"' then Err("member name expected")
    else
      var k := ParseString(t[1..]);
      if k.Err? then Err(k.error)
      else
        var c := SkipWs(k.value.1);
        if |c| == 0 || c[0] != ':' then Err("':' expected")
        else
          var v := ParseValue(c[1..]);
          if v.Err? then Err(v.error) else Ok((Member(k.value.0, v.value.0), v.value.1))
  }

  /** One or more comma-separated `"key":value` pairs and the closing `}`. */
  function ParseMembers(s: string): (r: Result<(seq<Member>, string)>)
    ensures r.Ok? ==> |r.value.1| < |s|
    decreases |s|, 2
  {
    var p := ParseMember(s);
    if p.Err? then Err(p.error)
    else
      var w := SkipWs(p.value.1);
      if |w| == 0 then Err("unterminated object")
      else if w[0] == '}' then Ok(([p.value.0], w[1..]))
      else if w[0] == ',' then
        var more := ParseMembers(w[1..]);
        if more.Err? then more else Ok(([p.value.0] + more.value.0, more.value.1))
      else Err("',' or '}' expected")
  }

  /** `JSON.parse`: one value, surrounded by optional whitespace and nothing else. */
  function Parse(s: string): Result<JsonValue>
  {
    var p := ParseValue(s);
    if p.Err? then Err(p.error)
    else if SkipWs(p.value.1) == [] then Ok(p.value.0)
    else Err("unexpected text after value")
  }

  // ---------------------------------------------------------------------------
  // Round trip: Parse inverts Stringify
  // ---------------------------------------------------------------------------

  // Numbers

  lemma {:induction false} DigitRunOfDigits(ds: string, rest: string)
    requires forall i :: 0 <= i < |ds| ==> IsDigit(ds[i])
    requires rest == [] || !IsDigit(rest[0])
    ensures DigitRun(ds + rest) == |ds|
  {
    if |ds| == 0 {
      assert ds + rest == rest;
    } else {
      assert (ds + rest)[1..] == ds[1..] + rest;
      DigitRunOfDigits(ds[1..], rest);
    }
  }

  lemma {:induction false} DigitsOfNat(n: nat)
    ensures DigitsValue(NatToString(n)) == n
  {
    var r := NatToString(n);
    if n >= 10 {
      DigitsOfNat(n / 10);
      assert r[..|r| - 1] == NatToString(n / 10);
    }
  }

  /** The digits of `m`, followed by a non-digit, read back as `m`. */
  lemma DigitsRoundTrip(m: nat, rest: string)
    requires rest == [] || !IsDigit(rest[0])
    ensures var u := NatToString(m) + rest; IsDigit(u[0]) && ParseDigits(u) == Ok((m, rest))
  {
    var ds := NatToString(m);
    var u := ds + rest;
    DigitRunOfDigits(ds, rest);
    assert u[..|ds|] == ds && u[|ds|..] == rest && u[0] == ds[0];
    DigitsOfNat(m);
  }

  /** How ParseNumber reads a number with or without a minus sign, given its digits. */
  lemma ParseNumberSteps(u: string, m: nat, rest: string)
    requires |u| > 0 && IsDigit(u[0]) && ParseDigits(u) == Ok((m, rest))
    ensures ParseNumber(u) == Ok((JNum(m), rest))
    ensures ParseNumber("-" + u) == Ok((JNum(-(m as int)), rest))
  {
    assert u[0] != '-';
    var t := "-" + u;
    assert t[0] == '-' && t[1..] == u;
  }

  lemma NumberRoundTrip(n: int, rest: string)
    requires rest == [] || !IsDigit(rest[0])
    ensures ParseNumber(IntToString(n) + rest) == Ok((JNum(n), rest))
  {
    if n < 0 {
      var u := NatToString(-n) + rest;
      DigitsRoundTrip(-n, rest);
      ParseNumberSteps(u, -n, rest);
      assert IntToString(n) + rest == "-" + u;
    } else {
      DigitsRoundTrip(n, rest);
      ParseNumberSteps(NatToString(n) + rest, n, rest);
    }
  }

  // Strings

  lemma HexRoundTrip(d: nat)
    requires d < 16
    ensures HexValue(HexDigit(d)) == Some(d)
  {
  }

  /** The two-character escapes read back as the character they stand for. */
  lemma ShortEscapeRoundTrip(c: char, tail: string)
    requires c == '"' || c == '\\' || c == '\U{0008}' || c == '\U{000C}' || c == '\n' || c == '\r' || c == '\t'
    ensures |EscapeChar(c) + tail| > 0 && ParseEscape((EscapeChar(c) + tail)[1..]) == Ok((c, tail))
  {
    var t := EscapeChar(c) + tail;
    assert t[1..] == [EscapeChar(c)[1]] + tail;
    assert t[1..][1..] == tail;
  }

  /** The `\u00xx` escape of a control character reads back as that character. */
  lemma UnicodeEscapeRoundTrip(c: char, tail: string)
    requires c < ' ' && c != '\U{0008}' && c != '\U{000C}' && c != '\n' && c != '\r' && c != '\t'
    ensures |EscapeChar(c) + tail| > 0 && ParseEscape((EscapeChar(c) + tail)[1..]) == Ok((c, tail))
  {
    var hi, lo := c as int / 16, c as int % 16;
    HexRoundTrip(hi);
    HexRoundTrip(lo);
    HexRoundTrip(0);
    var s := (EscapeChar(c) + tail)[1..];
    assert s == ['u', '0', '0', HexDigit(hi), HexDigit(lo)] + tail;
    assert s[5..] == tail;
  }

  /** An escaped surrogate pair, as an ASCII-only writer emits U+1F600, reads as that one character. */
  lemma SurrogatePairRead(tail: string)
    ensures ParseString("\\ud83d\\ude00\"" + tail) == Ok(("\U{1F600}", tail))
  {
    var s := "\\ud83d\\ude00\"" + tail;
    var low := "\\ude00\"" + tail;
    assert s[1..][1..] == "d83d\\ude00\"" + tail;
    assert Hex4(s[1..][1..]) == Some(0xD83D);
    assert s[1..][5..] == low;
    assert low[2..] == "de00\"" + tail;
    assert Hex4(low[2..]) == Some(0xDE00);
    assert Combine(0xD83D, 0xDE00) == '\U{1F600}';
    assert low[6..] == "\"" + tail;
    assert ParseString(low[6..]) == Ok(([], tail));
    assert ParseLowSurrogate(0xD83D, low) == Ok(('\U{1F600}', low[6..]));
    assert ParseEscape(s[1..]) == Ok(('\U{1F600}', low[6..]));
    assert s[0] == '\\';
    assert ['\U{1F600}'] + [] == "\U{1F600}";
  }

  /** A high surrogate escape without a low one after it is rejected: a lone surrogate is no character. */
  lemma LoneSurrogateRejected(tail: string)
    ensures ParseString("\\ud83dx" + tail).Err?
  {
    var s := "\\ud83dx" + tail;
    assert s[1..][1..] == "d83dx" + tail;
    assert Hex4(s[1..][1..]) == Some(0xD83D);
    assert s[1..][5..] == "x" + tail;
  }

  lemma EscapeCharRoundTrip(c: char, tail: string)
    ensures ParseString(EscapeChar(c) + tail) == (
      var p := ParseString(tail);
      if p.Err? then p else Ok(([c] + p.value.0, p.value.1)))
  {
    var t := EscapeChar(c) + tail;
    if c == '"' || c == '\\' || c == '\U{0008}' || c == '\U{000C}' || c == '\n' || c == '\r' || c == '\t' {
      ShortEscapeRoundTrip(c, tail);
      assert t[0] == '\\';
    } else if c < ' ' {
      UnicodeEscapeRoundTrip(c, tail);
      assert t[0] == '\\';
    } else {
      assert t[0] == c && t[1..] == tail;
    }
  }

  lemma {:induction false} StringRoundTrip(s: string, rest: string)
    ensures ParseString(EscapeString(s) + "\"" + rest) == Ok((s, rest))
  {
    if |s| == 0 {
      assert EscapeString(s) + "\"" + rest == "\"" + rest;
    } else {
      var tail := EscapeString(s[1..]) + "\"" + rest;
      assert EscapeString(s) + "\"" + rest == EscapeChar(s[0]) + tail;
      StringRoundTrip(s[1..], rest);
      EscapeCharRoundTrip(s[0], tail);
      assert [s[0]] + s[1..] == s;
    }
  }

  lemma QuoteRoundTrip(key: string, c: string)
    ensures var s := Quote(key) + c; |s| > 0 && s[0] == '"' && ParseString(s[1..]) == Ok((key, c))
  {
    var s := Quote(key) + c;
    assert s[1..] == EscapeString(key) + "\"" + c;
    StringRoundTrip(key, c);
  }

  // One unfolding of each parser, given what its parts read

  lemma ParseValueString(t: string)
    requires |t| > 0 && t[0] == '"'
    ensures ParseValue(t) == (var p := ParseString(t[1..]); if p.Err? then Err(p.error) else Ok((JStr(p.value.0), p.value.1)))
  {
    assert SkipWs(t) == t;
    assert t[0] != 'n' && t[0] != 't' && t[0] != 'f';
  }

  lemma ParseValueArray(body: string)
    ensures ParseValue("[" + body) == ParseArray(body)
  {
    var t := "[" + body;
    assert SkipWs(t) == t && t[1..] == body;
    assert t[0] != 'n' && t[0] != 't' && t[0] != 'f' && t[0] != '"';
  }

  lemma ParseValueObject(body: string)
    ensures ParseValue("{" + body) == ParseObject(body)
  {
    var t := "{" + body;
    assert SkipWs(t) == t && t[1..] == body;
    assert t[0] != 'n' && t[0] != 't' && t[0] != 'f' && t[0] != '"' && t[0] != '[';
  }

  lemma ParseArrayEmpty(rest: string)
    ensures ParseArray("]" + rest) == Ok((JArr([]), rest))
  {
    var t := "]" + rest;
    assert SkipWs(t) == t && t[1..] == rest;
  }

  lemma ParseArrayItems(body: string, items: seq<JsonValue>, rest: string)
    requires |body| > 0 && StartsValue(body[0]) && ParseItems(body) == Ok((items, rest))
    ensures ParseArray(body) == Ok((JArr(items), rest))
  {
    assert SkipWs(body) == body;
  }

  lemma ParseObjectEmpty(rest: string)
    ensures ParseObject("}" + rest) == Ok((JObj([]), rest))
  {
    var t := "}" + rest;
    assert SkipWs(t) == t && t[1..] == rest;
  }

  lemma ParseObjectMembers(body: string, members: seq<Member>, rest: string)
    requires |body| > 0 && body[0] == '"' && ParseMembers(body) == Ok((members, rest))
    ensures ParseObject(body) == Ok((JObj(members), rest))
  {
    assert SkipWs(body) == body;
  }

  lemma ParseValueNumber(t: string)
    requires |t| > 0 && (t[0] == '-' || IsDigit(t[0]))
    ensures ParseValue(t) == ParseNumber(t)
  {
    assert SkipWs(t) == t;
    assert t[0] != 'n' && t[0] != 't' && t[0] != 'f' && t[0] != '"' && t[0] != '[' && t[0] != '{';
  }

  lemma ParseItemsLast(s: string, v: JsonValue, rest: string)
    requires ParseValue(s) == Ok((v, "]" + rest))
    ensures ParseItems(s) == Ok(([v], rest))
  {
    var w := "]" + rest;
    assert SkipWs(w) == w && w[1..] == rest;
  }

  lemma ParseItemsMore(s: string, v: JsonValue, after: string, vs: seq<JsonValue>, rest: string)
    requires ParseValue(s) == Ok((v, "," + after))
    requires ParseItems(after) == Ok((vs, rest))
    ensures ParseItems(s) == Ok(([v] + vs, rest))
  {
    var w := "," + after;
    assert SkipWs(w) == w && w[1..] == after;
  }

  lemma ParseMemberSteps(s: string, key: string, c: string, value: JsonValue, after: string)
    requires |s| > 0 && s[0] == '"' && ParseString(s[1..]) == Ok((key, c))
    requires |c| > 0 && c[0] == ':' && ParseValue(c[1..]) == Ok((value, after))
    ensures ParseMember(s) == Ok((Member(key, value), after))
  {
    assert SkipWs(s) == s;
    assert SkipWs(c) == c;
  }

  lemma ParseMembersLast(s: string, m: Member, rest: string)
    requires ParseMember(s) == Ok((m, "}" + rest))
    ensures ParseMembers(s) == Ok(([m], rest))
  {
    var w := "}" + rest;
    assert SkipWs(w) == w && w[1..] == rest;
  }

  lemma ParseMembersMore(s: string, m: Member, after: string, ms: seq<Member>, rest: string)
    requires ParseMember(s) == Ok((m, "," + after))
    requires ParseMembers(after) == Ok((ms, rest))
    ensures ParseMembers(s) == Ok(([m] + ms, rest))
  {
    var w := "," + after;
    assert SkipWs(w) == w && w[1..] == after;
  }

  // Values, by structural induction

  lemma {:induction false} ValueRoundTrip(v: JsonValue, rest: string)
    requires rest == [] || !IsDigit(rest[0])
    ensures ParseValue(Stringify(v) + rest) == Ok((v, rest))
    decreases v, 0
  {
    match v
    case JNull =>
      LiteralRoundTrip(v, rest);
    case JBool(_) =>
      LiteralRoundTrip(v, rest);
    case JNum(n) =>
      ParseValueNumber(Stringify(v) + rest);
      NumberRoundTrip(n, rest);
    case JStr(s) =>
      var t := Stringify(v) + rest;
      assert t == Quote(s) + rest;
      QuoteRoundTrip(s, rest);
      ParseValueString(t);
    case JArr(items) =>
      ArrayDispatch(items, rest);
      ArrayRoundTrip(items, rest);
    case JObj(members) =>
      ObjectDispatch(members, rest);
      ObjectRoundTrip(members, rest);
  }

  lemma LiteralRoundTrip(v: JsonValue, rest: string)
    requires v.JNull? || v.JBool?
    ensures ParseValue(Stringify(v) + rest) == Ok((v, rest))
  {
    var t := Stringify(v) + rest;
    assert SkipWs(t) == t;
    if v.JNull? {
      assert t == "null" + rest && t[4..] == rest;
    } else if v.b {
      assert t == "true" + rest && t[4..] == rest;
    } else {
      assert t == "false" + rest && t[5..] == rest;
    }
  }

  lemma ArrayDispatch(items: seq<JsonValue>, rest: string)
    ensures ParseValue(Stringify(JArr(items)) + rest) == ParseArray(StringifyItems(items) + "]" + rest)
  {
    var body := StringifyItems(items) + "]" + rest;
    assert Stringify(JArr(items)) + rest == "[" + body;
    ParseValueArray(body);
  }

  lemma ObjectDispatch(members: seq<Member>, rest: string)
    ensures ParseValue(Stringify(JObj(members)) + rest) == ParseObject(StringifyMembers(members) + "}" + rest)
  {
    var body := StringifyMembers(members) + "}" + rest;
    assert Stringify(JObj(members)) + rest == "{" + body;
    ParseValueObject(body);
  }

  lemma {:induction false} ArrayRoundTrip(items: seq<JsonValue>, rest: string)
    ensures ParseArray(StringifyItems(items) + "]" + rest) == Ok((JArr(items), rest))
    decreases items, 1
  {
    var body := StringifyItems(items) + "]" + rest;
    if |items| == 0 {
      assert body == "]" + rest;
      ParseArrayEmpty(rest);
    } else {
      ItemsRoundTrip(items, rest);
      assert body[0] == StringifyItems(items)[0];
      ParseArrayItems(body, items, rest);
    }
  }

  lemma {:induction false} ObjectRoundTrip(members: seq<Member>, rest: string)
    ensures ParseObject(StringifyMembers(members) + "}" + rest) == Ok((JObj(members), rest))
    decreases members, 2
  {
    var body := StringifyMembers(members) + "}" + rest;
    if |members| == 0 {
      assert body == "}" + rest;
      ParseObjectEmpty(rest);
    } else {
      MembersRoundTrip(members, rest);
      assert body[0] == StringifyMembers(members)[0];
      ParseObjectMembers(body, members, rest);
    }
  }

  /** A non-empty sequence is its head followed by its tail. */
  lemma HeadTail<T>(xs: seq<T>)
    requires |xs| > 0
    ensures [xs[0]] + xs[1..] == xs && (|xs| == 1 ==> [xs[0]] == xs)
  {
  }

  lemma {:induction false} ItemsRoundTrip(items: seq<JsonValue>, rest: string)
    requires |items| > 0
    ensures ParseItems(StringifyItems(items) + "]" + rest) == Ok((items, rest))
    decreases items, 0
  {
    var s := StringifyItems(items) + "]" + rest;
    if |items| == 1 {
      assert s == Stringify(items[0]) + ("]" + rest) by {}
      ValueRoundTrip(items[0], "]" + rest);
      ParseItemsLast(s, items[0], rest);
      HeadTail(items);
    } else {
      var after := StringifyItems(items[1..]) + "]" + rest;
      assert s == Stringify(items[0]) + ("," + after) by {}
      ValueRoundTrip(items[0], "," + after);
      ItemsRoundTrip(items[1..], rest);
      ParseItemsMore(s, items[0], after, items[1..], rest);
      HeadTail(items);
    }
  }

  /** A quoted key, a colon and the text of a value read back as that pair. */
  lemma MemberPieces(key: string, text: string, value: JsonValue, after: string)
    requires ParseValue(text + after) == Ok((value, after))
    ensures ParseMember(Quote(key) + ":" + text + after) == Ok((Member(key, value), after))
  {
    var c := ":" + text + after;
    var s := Quote(key) + ":" + text + after;
    assert s == Quote(key) + c;
    QuoteRoundTrip(key, c);
    assert c[1..] == text + after;
    ParseMemberSteps(s, key, c, value, after);
  }

  lemma {:induction false} MemberRoundTrip(m: Member, after: string)
    requires after == [] || !IsDigit(after[0])
    ensures ParseMember(StringifyMember(m) + after) == Ok((m, after))
    decreases m
  {
    ValueRoundTrip(m.value, after);
    MemberPieces(m.key, Stringify(m.value), m.value, after);
  }

  lemma {:induction false} MembersRoundTrip(members: seq<Member>, rest: string)
    requires |members| > 0
    ensures ParseMembers(StringifyMembers(members) + "}" + rest) == Ok((members, rest))
    decreases members, 1
  {
    if |members| == 1 {
      var s := StringifyMembers(members) + "}" + rest;
      assert s == StringifyMember(members[0]) + ("}" + rest) by {}
      MemberRoundTrip(members[0], "}" + rest);
      ParseMembersLast(s, members[0], rest);
      HeadTail(members);
    } else {
      MembersRoundTripCons(members, rest);
    }
  }

  lemma {:induction false} MembersRoundTripCons(members: seq<Member>, rest: string)
    requires |members| > 1
    ensures ParseMembers(StringifyMembers(members) + "}" + rest) == Ok((members, rest))
    decreases members, 0
  {
    var s := StringifyMembers(members) + "}" + rest;
    var after := StringifyMembers(members[1..]) + "}" + rest;
    assert s == StringifyMember(members[0]) + ("," + after) by {}
    MemberRoundTrip(members[0], "," + after);
    MembersRoundTrip(members[1..], rest);
    ParseMembersMore(s, members[0], after, members[1..], rest);
    HeadTail(members);
  }

  /** `JSON.parse(JSON.stringify(v))` gives back `v`. */
  lemma ParseStringify(v: JsonValue)
    ensures Parse(Stringify(v)) == Ok(v)
  {
    ValueRoundTrip(v, []);
    assert Stringify(v) + [] == Stringify(v);
  }
}
