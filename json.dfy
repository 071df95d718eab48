/**
 * The JSON text the client keeps under the 'user' key of localStorage: `JSON.stringify` of an object and
 * `JSON.parse` back. Values are null, booleans, integers, strings and objects (arrays and fractions are not
 * part of this model).
 */
module Json {
  import opened Common
  import opened Decimal

  datatype Value = JNull | JBool(b: bool) | JNum(n: int) | JStr(s: string) | JObj(members: seq<Member>)
  datatype Member = Member(key: string, value: Value)
  type Object = seq<Member>

  /** JavaScript truthiness: `null`, `false`, `0` and `""` are falsy, every object is truthy. */
  predicate Truthy(v: Value) {
    match v
    case JNull => false
    case JBool(b) => b
    case JNum(n) => n != 0
    case JStr(s) => s != ""
    case JObj(_) => true
  }

  /** Truthiness of a possibly undefined value (`undefined` is falsy). */
  predicate TruthyOpt(v: Option<Value>) {
    v.Some? && Truthy(v.value)
  }

  /** `obj[key]` on a parsed object: with duplicate keys the last member wins, as with `JSON.parse`. */
  function Get(obj: Object, key: string): (r: Option<Value>)
    ensures r.None? <==> forall i :: 0 <= i < |obj| ==> obj[i].key != key
    ensures r.Some? ==> exists i :: 0 <= i < |obj| && obj[i] == Member(key, r.value)
  {
    if obj == [] then None
    else if obj[|obj| - 1].key == key then Some(obj[|obj| - 1].value)
    else Get(obj[..|obj| - 1], key)
  }

  /** `v.key` on a value that is not `null`: an object's member, `undefined` on a primitive. */
  function Property(v: Value, key: string): (r: Option<Value>)
    requires !v.JNull?
    ensures !v.JObj? ==> r.None?
  {
    if v.JObj? then Get(v.members, key) else None
  }

  /** `a || b`: the first operand when it is truthy, otherwise the second, whatever it is. */
  function Or(a: Option<Value>, b: Option<Value>): (r: Option<Value>)
    ensures TruthyOpt(a) ==> r == a
    ensures !TruthyOpt(a) ==> r == b
  {
    if TruthyOpt(a) then a else b
  }

  /** `String(v)` / `v.toString()` for the values that can reach a request header. */
  function ToJsString(v: Value): string {
    match v
    case JNull => "null"
    case JBool(b) => if b then "true" else "false"
    case JNum(n) => IntToString(n)
    case JStr(s) => s
    case JObj(_) => "[object Object]"
  }

  /** The number of values in `v`, nested ones included: the measure the round-trip proof descends on. */
  function Size(v: Value): nat {
    match v
    case JObj(ms) => 1 + MembersSize(ms)
    case _ => 1
  }

  function MembersSize(ms: Object): nat {
    if ms == [] then 0 else Size(ms[0].value) + MembersSize(ms[1..])
  }

  // ---------------------------------------------------------------- JSON.stringify

  function HexDigit(d: nat): (c: char)
    requires d < 16
  {
    if d < 10 then DigitChar(d) else ('a' as int + (d - 10)) as char
  }

  /** How `JSON.stringify` writes one character inside a string literal. */
  function EscapeChar(c: char): string {
    if c == '"' then "\\\""
    else if c == '\\' then "\\\\"
    else if c == '\U{0008}' then "\\b"
    else if c == '\t' then "\\t"
    else if c == '\n' then "\\n"
    else if c == '\U{000C}' then "\\f"
    else if c == '\r' then "\\r"
    else if (c as int) < 0x20 then "\\u00" + [HexDigit((c as int) / 16), HexDigit((c as int) % 16)]
    else [c]
  }

  function Escape(s: string): string {
    if s == [] then [] else EscapeChar(s[0]) + Escape(s[1..])
  }

  function Quote(s: string): string {
    "\"" + Escape(s) + "\""
  }

  /** `JSON.stringify(v)`: no white space, members in order. */
  function Stringify(v: Value): string {
    match v
    case JNull => "null"
    case JBool(b) => if b then "true" else "false"
    case JNum(n) => IntToString(n)
    case JStr(s) => Quote(s)
    case JObj(ms) => "{" + StringifyMembers(ms) + "}"
  }

  function StringifyMember(m: Member): string {
    Quote(m.key) + ":" + Stringify(m.value)
  }

  /** The members of an object, separated by commas. */
  function StringifyMembers(ms: Object): string {
    if ms == [] then []
    else if |ms| == 1 then StringifyMember(ms[0])
    else StringifyMember(ms[0]) + "," + StringifyMembers(ms[1..])
  }

  // ---------------------------------------------------------------- JSON.parse

  predicate IsJsonSpace(c: char) {
    c == ' ' || c == '\t' || c == '\n' || c == '\r'
  }

  function SkipSpace(s: string): (r: string)
    ensures |r| <= |s|
  {
    if s != [] && IsJsonSpace(s[0]) then SkipSpace(s[1..]) else s
  }

  function HexValue(c: char): (r: Option<nat>)
    ensures r.Some? ==> r.value < 16
  {
    if '0' <= c <= '9' then Some((c as int) - ('0' as int))
    else if 'a' <= c <= 'f' then Some((c as int) - ('a' as int) + 10)
    else if 'A' <= c <= 'F' then Some((c as int) - ('A' as int) + 10)
    else None
  }

  /** The value of a run of hex digits, most significant first; `None` when one of them is not a hex digit. */
  function HexNumber(s: string): (r: Option<nat>)
    ensures r.Some? ==> r.value < Pow16(|s|)
  {
    if s == [] then Some(0)
    else
      var high := HexNumber(s[..|s| - 1]);
      var low := HexValue(s[|s| - 1]);
      if high.Some? && low.Some? then
        assert high.value * 16 + low.value < Pow16(|s|) by {
          assert high.value * 16 <= (Pow16(|s| - 1) - 1) * 16;
        }
        Some(high.value * 16 + low.value)
      else None
  }

  function Pow16(n: nat): nat {
    if n == 0 then 1 else 16 * Pow16(n - 1)
  }

  /** The characters that stand for themselves or for a control character after a backslash. */
  const ShortEscapes: map<char, char> :=
    map['"' := '"', '\\' := '\\', '/' := '/', 'b' := '\U{0008}', 'f' := '\U{000C}', 'n' := '\n', 'r' := '\r', 't' := '\t']

  /** The character a backslash escape stands for, with the length of the escape after the backslash. */
  function Unescape(s: string): (r: Option<(char, nat)>)
    ensures r.Some? ==> 1 <= r.value.1 <= |s|
  {
    if s == [] then None
    else if s[0] in ShortEscapes then Some((ShortEscapes[s[0]], 1))
    else if s[0] == 'u' && |s| >= 5 then
      var code := HexNumber(s[1..5]);
      assert Pow16(4) == 0x10000 by {
        assert Pow16(2) == 256;
      }
      if code.None? || 0xD800 <= code.value <= 0xDFFF then None else Some((code.value as char, 5))
    else None
  }

  /** The body of a string literal, after its opening quote: the decoded text and what follows the closing quote. */
  function ParseStringBody(s: string): (r: Option<(string, string)>)
    ensures r.Some? ==> |r.value.1| < |s|
    decreases |s|
  {
    if s == [] then None
    else if s[0] == '"' then Some(([], s[1..]))
    else if s[0] == '\\' then
      match Unescape(s[1..])
      case None => None
      case Some((c, n)) =>
        match ParseStringBody(s[1 + n..])
        case None => None
        case Some((t, rest)) => Some(([c] + t, rest))
    else if (s[0] as int) < 0x20 then None
    else
      match ParseStringBody(s[1..])
      case None => None
      case Some((t, rest)) => Some(([s[0]] + t, rest))
  }

  /** Length of the run of decimal digits that starts `s`. */
  function DigitRun(s: string): (n: nat)
    ensures n <= |s| && AllDigits(s[..n])
    ensures n < |s| ==> !IsDigit(s[n])
  {
    if s != [] && IsDigit(s[0]) then
      var n := 1 + DigitRun(s[1..]);
      assert s[..n] == [s[0]] + s[1..][..n - 1];
      n
    else 0
  }

  /** A JSON integer: an optional minus sign and digits without a superfluous leading zero. */
  function ParseNumber(s: string): (r: Option<(int, string)>)
    ensures r.Some? ==> |r.value.1| < |s|
  {
    var neg := s != [] && s[0] == '-';
    var t := if neg then s[1..] else s;
    var n := DigitRun(t);
    if n == 0 || (n > 1 && t[0] == '0') then None
    else
      var magnitude: int := DigitsValue(t[..n]);
      Some((if neg then -magnitude else magnitude, t[n..]))
  }

  /** One JSON value after optional white space, with the text that follows it. */
  function ParseValue(s: string): (r: Option<(Value, string)>)
    ensures r.Some? ==> |r.value.1| < |s|
    decreases |s|, 2
  {
    var t := SkipSpace(s);
    if t == [] then None
    else if t[0] == '"' then
      var str := ParseStringBody(t[1..]);
      if str.None? then None else Some((JStr(str.value.0), str.value.1))
    else if t[0] == '{' then
      var obj := ParseObjectBody(t[1..]);
      if obj.None? then None else Some((JObj(obj.value.0), obj.value.1))
    else if StartsWith(t, "null") then Some((JNull, t[4..]))
    else if StartsWith(t, "true") then Some((JBool(true), t[4..]))
    else if StartsWith(t, "false") then Some((JBool(false), t[5..]))
    else
      var num := ParseNumber(t);
      if num.None? then None else Some((JNum(num.value.0), num.value.1))
  }

  /** An object after its opening brace: `}` at once, or members up to the closing brace. */
  function ParseObjectBody(s: string): (r: Option<(Object, string)>)
    ensures r.Some? ==> |r.value.1| < |s|
    decreases |s|, 2
  {
    var u := SkipSpace(s);
    if u != [] && u[0] == '}' then Some(([], u[1..])) else ParseMembers(u)
  }

  /** One `"key": value` member, with the text that follows it. */
  function ParseMember(s: string): (r: Option<(Member, string)>)
    ensures r.Some? ==> |r.value.1| < |s|
    decreases |s|, 0
  {
    var t := SkipSpace(s);
    if t == [] || t[0] != '"' then None
    else
      var key := ParseStringBody(t[1..]);
      if key.None? then None
      else
        var r2 := SkipSpace(key.value.1);
        if r2 == [] || r2[0] != ':' then None
        else
          var v := ParseValue(r2[1..]);
          if v.None? then None else Some((Member(key.value.0, v.value.0), v.value.1))
  }

  /** Members separated by commas up to the closing brace, with the text after the brace. */
  function ParseMembers(s: string): (r: Option<(Object, string)>)
    ensures r.Some? ==> |r.value.1| < |s|
    decreases |s|, 1
  {
    var first := ParseMember(s);
    if first.None? then None else ParseMoreMembers(first.value.0, first.value.1)
  }

  /** What follows member `m`: the closing brace, or a comma and further members. */
  function ParseMoreMembers(m: Member, s: string): (r: Option<(Object, string)>)
    ensures r.Some? ==> |r.value.1| < |s|
    decreases |s|, 0
  {
    var t := SkipSpace(s);
    if t == [] then None
    else if t[0] == '}' then Some(([m], t[1..]))
    else if t[0] == ',' then
      var more := ParseMembers(t[1..]);
      if more.None? then None else Some(([m] + more.value.0, more.value.1))
    else None
  }

  /** `JSON.parse(s)`: one value, white space allowed around it; `None` where `JSON.parse` throws. */
  function Parse(s: string): Option<Value> {
    var v := ParseValue(s);
    if v.Some? && SkipSpace(v.value.1) == [] then Some(v.value.0) else None
  }

  // ---------------------------------------------------------------- JSON.parse(JSON.stringify(v)) == v

  lemma SkipSpaceNoop(s: string)
    requires s == [] || !IsJsonSpace(s[0])
    ensures SkipSpace(s) == s
  {
  }

  /** Four hex digits written by `JSON.stringify` for a control character read back as that character. */
  lemma {:induction false} HexRoundTrip(c: char)
    requires (c as int) < 0x20
    ensures HexNumber("00" + [HexDigit((c as int) / 16), HexDigit((c as int) % 16)]) == Some(c as int)
  {
    var h, l := (c as int) / 16, (c as int) % 16;
    var w := "00" + [HexDigit(h), HexDigit(l)];
    assert HexValue(HexDigit(h)) == Some(h);
    assert HexValue(HexDigit(l)) == Some(l);
    assert w[..3][..2][..1][..0] == [];
    assert HexNumber(w[..3][..2][..1]) == Some(0);
    assert HexNumber(w[..3][..2]) == Some(0);
    assert HexNumber(w[..3]) == Some(h);
  }

  lemma {:induction false} EscapeCharRoundTrip(c: char, rest: string)
    ensures ParseStringBody(EscapeChar(c) + rest) ==
      match ParseStringBody(rest)
      case None => None
      case Some((t, r)) => Some(([c] + t, r))
  {
    var e := EscapeChar(c) + rest;
    if c == '"' || c == '\\' || c == '\U{0008}' || c == '\t' || c == '\n' || c == '\U{000C}' || c == '\r' {
      assert e[1 + 1..] == rest;
    } else if (c as int) < 0x20 {
      HexRoundTrip(c);
      assert e[1..][1..5] == "00" + [HexDigit((c as int) / 16), HexDigit((c as int) % 16)];
      assert e[1 + 5..] == rest;
    } else {
      assert e[1..] == rest;
    }
  }

  lemma {:induction false} EscapeRoundTrip(s: string, rest: string)
    ensures ParseStringBody(Escape(s) + "\"" + rest) == Some((s, rest))
  {
    if s == [] {
      assert Escape(s) + "\"" + rest == "\"" + rest;
    } else {
      EscapeRoundTrip(s[1..], rest);
      assert Escape(s) + "\"" + rest == EscapeChar(s[0]) + (Escape(s[1..]) + "\"" + rest);
      EscapeCharRoundTrip(s[0], Escape(s[1..]) + "\"" + rest);
      assert [s[0]] + s[1..] == s;
    }
  }

  lemma {:induction false} DigitRunOf(d: string, rest: string)
    requires AllDigits(d)
    requires rest == [] || !IsDigit(rest[0])
    ensures DigitRun(d + rest) == |d|
  {
    if d != [] {
      assert (d + rest)[1..] == d[1..] + rest;
      DigitRunOf(d[1..], rest);
    }
  }

  /** An unsigned numeral without a superfluous leading zero reads as its value. */
  lemma {:induction false} ParseDigits(d: string, rest: string)
    requires d != [] && AllDigits(d) && (|d| > 1 ==> d[0] != '0')
    requires rest == [] || !IsDigit(rest[0])
    ensures ParseNumber(d + rest) == Some((DigitsValue(d), rest))
  {
    DigitRunOf(d, rest);
    assert (d + rest)[..|d|] == d;
    assert (d + rest)[|d|..] == rest;
  }

  /** A minus sign before such a numeral negates it. */
  lemma {:induction false} ParseNegativeDigits(d: string, rest: string)
    requires d != [] && AllDigits(d) && (|d| > 1 ==> d[0] != '0')
    requires rest == [] || !IsDigit(rest[0])
    ensures var v: int := DigitsValue(d); ParseNumber("-" + d + rest) == Some((-v, rest))
  {
    var s := "-" + d + rest;
    assert s[1..] == d + rest;
    DigitRunOf(d, rest);
    assert (d + rest)[..|d|] == d;
    assert (d + rest)[|d|..] == rest;
  }

  lemma {:induction false} NumberRoundTrip(n: int, rest: string)
    requires rest == [] || !IsDigit(rest[0])
    ensures ParseNumber(IntToString(n) + rest) == Some((n, rest))
  {
    if n < 0 {
      DigitsValueOfNatToString(-n);
      ParseNegativeDigits(NatToString(-n), rest);
    } else {
      DigitsValueOfNatToString(n);
      ParseDigits(NatToString(n), rest);
    }
  }

  /** What may follow a value inside the text `JSON.stringify` writes: the end, a comma or a closing brace. */
  predicate Delimits(rest: string) {
    rest == [] || rest[0] == ',' || rest[0] == '}'
  }

  /** The first character of a written number is a digit or a minus sign. */
  lemma IntToStringStart(n: int)
    ensures IntToString(n)[0] == '-' || IsDigit(IntToString(n)[0])
  {
  }

  lemma {:induction false} ParseValueString(t: string, str: string, rest: string)
    requires t != [] && t[0] == '"' && ParseStringBody(t[1..]) == Some((str, rest))
    ensures ParseValue(t) == Some((JStr(str), rest))
  {
    SkipSpaceNoop(t);
  }

  lemma {:induction false} ParseValueObject(t: string, ms: Object, rest: string)
    requires t != [] && t[0] == '{' && ParseObjectBody(t[1..]) == Some((ms, rest))
    ensures ParseValue(t) == Some((JObj(ms), rest))
  {
    SkipSpaceNoop(t);
  }

  lemma {:induction false} ParseValueNumber(t: string, n: int, rest: string)
    requires t != [] && (t[0] == '-' || IsDigit(t[0])) && ParseNumber(t) == Some((n, rest))
    ensures ParseValue(t) == Some((JNum(n), rest))
  {
    SkipSpaceNoop(t);
  }

  lemma ParseNull(rest: string)
    ensures ParseValue("null" + rest) == Some((JNull, rest))
  {
    var t := "null" + rest;
    SkipSpaceNoop(t);
    assert t[..4] == "null";
    assert t[4..] == rest;
  }

  lemma ParseTrue(rest: string)
    ensures ParseValue("true" + rest) == Some((JBool(true), rest))
  {
    var t := "true" + rest;
    SkipSpaceNoop(t);
    assert t[..4] == "true";
    assert t[4..] == rest;
  }

  lemma ParseFalse(rest: string)
    ensures ParseValue("false" + rest) == Some((JBool(false), rest))
  {
    var t := "false" + rest;
    SkipSpaceNoop(t);
    assert t[..5] == "false";
    assert t[5..] == rest;
  }

  lemma {:induction false} ParseObjectEmpty(t: string)
    requires t != [] && t[0] == '}'
    ensures ParseObjectBody(t) == Some(([], t[1..]))
  {
    SkipSpaceNoop(t);
  }

  lemma {:induction false} ParseObjectMembers(t: string, ms: Object, rest: string)
    requires t != [] && t[0] == '"' && ParseMembers(t) == Some((ms, rest))
    ensures ParseObjectBody(t) == Some((ms, rest))
  {
    SkipSpaceNoop(t);
  }

  lemma {:induction false} MembersStepLast(m: Member, s: string)
    requires s != [] && s[0] == '}'
    ensures ParseMoreMembers(m, s) == Some(([m], s[1..]))
  {
    SkipSpaceNoop(s);
  }

  lemma {:induction false} MembersStepMore(m: Member, s: string)
    requires s != [] && s[0] == ','
    ensures ParseMoreMembers(m, s) ==
      var more := ParseMembers(s[1..]);
      if more.None? then None else Some(([m] + more.value.0, more.value.1))
  {
    SkipSpaceNoop(s);
  }

  lemma {:induction false} MemberThenMore(s: string)
    requires ParseMember(s).Some?
    ensures ParseMembers(s) == ParseMoreMembers(ParseMember(s).value.0, ParseMember(s).value.1)
  {
  }

  lemma {:induction false} ParseMembersLast(text: string, m: Member, close: string)
    requires ParseMember(text) == Some((m, close))
    requires close != [] && close[0] == '}'
    ensures ParseMembers(text) == Some(([m], close[1..]))
  {
    MemberThenMore(text);
    MembersStepLast(m, close);
  }

  lemma {:induction false} ParseMembersCons(text: string, m: Member, comma: string, ms: Object, rest: string)
    requires ParseMember(text) == Some((m, comma))
    requires comma != [] && comma[0] == ','
    requires ParseMembers(comma[1..]) == Some((ms, rest))
    ensures ParseMembers(text) == Some(([m] + ms, rest))
  {
    MemberThenMore(text);
    MembersStepMore(m, comma);
  }

  lemma {:induction false} ParseMemberOf(t: string, key: string, v: Value, rest: string)
    requires t != [] && t[0] == '"'
    requires ParseStringBody(t[1..]) == Some((key, ":" + Stringify(v) + rest))
    requires ParseValue(Stringify(v) + rest) == Some((v, rest))
    ensures ParseMember(t) == Some((Member(key, v), rest))
  {
    SkipSpaceNoop(t);
    var colon := ":" + Stringify(v) + rest;
    SkipSpaceNoop(colon);
    assert colon[1..] == Stringify(v) + rest;
  }

  lemma StringifyMemberStart(m: Member)
    ensures StringifyMember(m) != [] && StringifyMember(m)[0] == '"'
  {
    assert StringifyMember(m) == "\"" + (Escape(m.key) + "\"" + ":" + Stringify(m.value));
  }

  lemma {:induction false} StringifyMembersStart(ms: Object)
    requires ms != []
    ensures StringifyMembers(ms) != [] && StringifyMembers(ms)[0] == '"'
  {
    StringifyMemberStart(ms[0]);
    if |ms| > 1 {
      assert StringifyMembers(ms) == StringifyMember(ms[0]) + ("," + StringifyMembers(ms[1..]));
    }
  }

  lemma StringRoundTrip(s: string, rest: string)
    ensures ParseValue(Stringify(JStr(s)) + rest) == Some((JStr(s), rest))
  {
    var t := Stringify(JStr(s)) + rest;
    assert t[1..] == Escape(s) + "\"" + rest;
    EscapeRoundTrip(s, rest);
    ParseValueString(t, s, rest);
  }

  lemma NumberValueRoundTrip(n: int, rest: string)
    requires Delimits(rest)
    ensures ParseValue(Stringify(JNum(n)) + rest) == Some((JNum(n), rest))
  {
    IntToStringStart(n);
    NumberRoundTrip(n, rest);
    ParseValueNumber(IntToString(n) + rest, n, rest);
  }

  lemma ObjectValueRoundTrip(ms: Object, rest: string)
    requires ParseObjectBody(StringifyMembers(ms) + "}" + rest) == Some((ms, rest))
    ensures ParseValue(Stringify(JObj(ms)) + rest) == Some((JObj(ms), rest))
  {
    var t := Stringify(JObj(ms)) + rest;
    assert t[1..] == StringifyMembers(ms) + "}" + rest;
    ParseValueObject(t, ms, rest);
  }

  lemma {:induction false} ValueRoundTrip(v: Value, rest: string)
    requires Delimits(rest)
    ensures ParseValue(Stringify(v) + rest) == Some((v, rest))
    decreases Size(v), 0
  {
    match v
    case JNull => ParseNull(rest);
    case JBool(b) => if b { ParseTrue(rest); } else { ParseFalse(rest); }
    case JNum(n) => NumberValueRoundTrip(n, rest);
    case JStr(s) => StringRoundTrip(s, rest);
    case JObj(ms) =>
      ObjectRoundTrip(ms, rest);
      ObjectValueRoundTrip(ms, rest);
  }

  lemma {:induction false} ObjectRoundTrip(ms: Object, rest: string)
    requires Delimits(rest)
    ensures ParseObjectBody(StringifyMembers(ms) + "}" + rest) == Some((ms, rest))
    decreases MembersSize(ms), 3
  {
    var t := StringifyMembers(ms) + "}" + rest;
    if ms == [] {
      assert t == "}" + rest;
      ParseObjectEmpty(t);
    } else {
      StringifyMembersStart(ms);
      MembersRoundTrip(ms, rest);
      ParseObjectMembers(t, ms, rest);
    }
  }

  lemma {:induction false} MemberRoundTrip(m: Member, rest: string)
    requires rest != [] && (rest[0] == ',' || rest[0] == '}')
    ensures ParseMember(StringifyMember(m) + rest) == Some((m, rest))
    decreases Size(m.value), 1
  {
    var t := StringifyMember(m) + rest;
    var colon := ":" + Stringify(m.value) + rest;
    assert t == Quote(m.key) + colon;
    assert t[1..] == Escape(m.key) + "\"" + colon;
    EscapeRoundTrip(m.key, colon);
    ValueRoundTrip(m.value, rest);
    ParseMemberOf(t, m.key, m.value, rest);
  }

  lemma {:induction false} MembersRoundTrip(ms: Object, rest: string)
    requires ms != [] && Delimits(rest)
    ensures ParseMembers(StringifyMembers(ms) + "}" + rest) == Some((ms, rest))
    decreases MembersSize(ms), 2
  {
    var text := StringifyMembers(ms) + "}" + rest;
    if |ms| == 1 {
      var close := "}" + rest;
      StringifyMembersSingle(ms, rest);
      MemberRoundTrip(ms[0], close);
      JoinLast(text, ms[0], close, ms, rest);
    } else {
      var after := StringifyMembers(ms[1..]) + "}" + rest;
      var comma := "," + after;
      StringifyMembersSplit(ms, rest);
      MemberRoundTrip(ms[0], comma);
      MembersRoundTrip(ms[1..], rest);
      JoinCons(text, ms[0], comma, after, ms[1..], ms, rest);
    }
  }

  lemma {:induction false} StringifyMembersSplit(ms: Object, rest: string)
    requires |ms| > 1
    ensures StringifyMembers(ms) + "}" + rest == StringifyMember(ms[0]) + ("," + (StringifyMembers(ms[1..]) + "}" + rest))
    ensures ms == [ms[0]] + ms[1..]
  {
    var a, b := StringifyMember(ms[0]), StringifyMembers(ms[1..]);
    assert StringifyMembers(ms) == a + "," + b;
    assert a + "," + b + "}" + rest == a + ("," + (b + "}" + rest));
  }

  lemma {:induction false} StringifyMembersSingle(ms: Object, rest: string)
    requires |ms| == 1
    ensures StringifyMembers(ms) + "}" + rest == StringifyMember(ms[0]) + ("}" + rest)
    ensures ms == [ms[0]]
  {
  }

  lemma {:induction false} JoinLast(text: string, m: Member, close: string, ms: Object, rest: string)
    requires ParseMember(text) == Some((m, close))
    requires close == "}" + rest && ms == [m]
    ensures ParseMembers(text) == Some((ms, rest))
  {
    assert close[1..] == rest;
    ParseMembersLast(text, m, close);
  }

  lemma {:induction false} JoinCons(text: string, m: Member, comma: string, after: string, tail: Object, ms: Object, rest: string)
    requires ParseMember(text) == Some((m, comma))
    requires comma == "," + after && ParseMembers(after) == Some((tail, rest))
    requires ms == [m] + tail
    ensures ParseMembers(text) == Some((ms, rest))
  {
    assert comma[1..] == after;
    ParseMembersCons(text, m, comma, tail, rest);
  }

  /** `JSON.parse(JSON.stringify(v))` gives back `v`: what the client saves it reads back unchanged. */
  lemma {:induction false} ParseStringify(v: Value)
    ensures Parse(Stringify(v)) == Some(v)
  {
    ValueRoundTrip(v, "");
    assert Stringify(v) + "" == Stringify(v);
    SkipSpaceNoop("");
  }
}
