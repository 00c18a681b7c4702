/**
 Canonical JSON of planner proposals: src/planning/planner-proposal.ts.

 Text is a sequence of UTF-16 code units, as in JavaScript. `JSON.stringify` is
 written out for strings; a number is the token that stands for it. The parser
 that inverts the text follows sections 2 to 7 of RFC 8259.
 */
module StableJson {
  import opened Prelude
  import opened JsText

  const COMMA: Unit := ',' as int
  const COLON: Unit := ':' as int
  const LEFT_BRACKET: Unit := '[' as int
  const RIGHT_BRACKET: Unit := ']' as int
  const LEFT_BRACE: Unit := '{' as int
  const RIGHT_BRACE: Unit := '}' as int
  const NULL_WORD: Text := ['n' as int, 'u' as int, 'l' as int, 'l' as int]
  const TRUE_WORD: Text := ['t' as int, 'r' as int, 'u' as int, 'e' as int]
  const FALSE_WORD: Text := ['f' as int, 'a' as int, 'l' as int, 's' as int, 'e' as int]

  /** A JSON value; the members of an object are in insertion order. */
  datatype Json =
    | Null
    | Bool(b: bool)
    | Number(token: Text)
    | Str(s: Text)
    | Arr(items: seq<Json>)
    | Obj(members: seq<Member>)
  datatype Member = Member(key: Text, value: Json)

  // -------------------------------------------------------------- numbers

  /** Digits, sign, point and exponent. */
  predicate IsNumberUnit(u: Unit) {
    IsDigit(u) || u in {0x2B, 0x2D, 0x2E, 0x45, 0x65}
  }

  function DropDigits(t: Text): Text {
    if t != [] && IsDigit(t[0]) then DropDigits(t[1..]) else t
  }

  predicate IsExponent(t: Text) {
    t == []
    || (t[0] in {0x45, 0x65} &&
        var digits := if |t| > 1 && t[1] in {0x2B, 0x2D} then t[2..] else t[1..];
        digits != [] && IsDigit(digits[0]) && DropDigits(digits) == [])
  }

  predicate IsFraction(t: Text) {
    if t != [] && t[0] == 0x2E
    then |t| > 1 && IsDigit(t[1]) && IsExponent(DropDigits(t[1..]))
    else IsExponent(t)
  }

  predicate IsNumber(t: Text) {
    && (forall u :: u in t ==> IsNumberUnit(u))
    && var digits := if t != [] && t[0] == 0x2D then t[1..] else t;
       && digits != [] && IsDigit(digits[0])
       && IsFraction(if digits[0] == 0x30 then digits[1..] else DropDigits(digits))
  }

  predicate AreDigits(t: Text) {
    forall k :: 0 <= k < |t| ==> '0' as int <= t[k] <= '9' as int
  }

  predicate FractionWritten(fraction: Text) {
    fraction != [] ==> fraction[0] == '.' as int && |fraction| > 1 && AreDigits(fraction[1..])
  }

  /** The digits behind the letter of an exponent and its sign. */
  function ExponentDigits(rest: Text): Text {
    if rest != [] && (rest[0] == '+' as int || rest[0] == '-' as int) then rest[1..] else rest
  }

  predicate ExponentWritten(exponent: Text) {
    exponent != [] ==>
      && (exponent[0] == 'e' as int || exponent[0] == 'E' as int)
      && ExponentDigits(exponent[1..]) != [] && AreDigits(ExponentDigits(exponent[1..]))
  }

  /** The grammar of section 6 of RFC 8259: a sign, digits without leading zeros,
      a fraction and an exponent. */
  predicate IsWritten(sign: Text, whole: Text, fraction: Text, exponent: Text) {
    && (sign == [] || sign == ['-' as int])
    && whole != [] && AreDigits(whole) && (|whole| > 1 ==> whole[0] != '0' as int)
    && FractionWritten(fraction) && ExponentWritten(exponent)
  }

  lemma {:induction false} DropsDigits(t: Text) returns (n: nat)
    ensures n <= |t| && DropDigits(t) == t[n..] && AreDigits(t[..n])
    ensures n < |t| ==> !IsDigit(t[n])
    decreases |t|
  {
    if t != [] && IsDigit(t[0]) {
      var m := DropsDigits(t[1..]);
      n := m + 1;
      assert t[1..][m..] == t[n..];
      assert forall k :: 0 < k < n ==> t[k] == t[1..][..m][k - 1];
    } else {
      n := 0;
    }
  }

  lemma {:induction false} DigitsAreDropped(digits: Text, rest: Text)
    requires AreDigits(digits) && (rest != [] ==> !IsDigit(rest[0]))
    ensures DropDigits(digits + rest) == rest
    decreases |digits|
  {
    if digits == [] {
      assert digits + rest == rest;
    } else {
      assert (digits + rest)[1..] == digits[1..] + rest;
      DigitsAreDropped(digits[1..], rest);
    }
  }

  lemma ExponentIff(t: Text)
    ensures IsExponent(t) <==> ExponentWritten(t)
  {
    if t != [] {
      var rest := t[1..];
      var digits := ExponentDigits(rest);
      assert |t| > 1 ==> t[1] == rest[0] && t[2..] == rest[1..];
      var n := DropsDigits(digits);
      assert digits[..|digits|] == digits;
      if AreDigits(digits) {
        assert digits + [] == digits;
        DigitsAreDropped(digits, []);
      }
    }
  }

  lemma ExponentUnits(t: Text)
    requires IsExponent(t)
    ensures forall u :: u in t ==> IsNumberUnit(u)
    ensures t != [] ==> !IsDigit(t[0]) && t[0] != '.' as int
  {
    ExponentIff(t);
    if t != [] {
      var rest := t[1..];
      var digits := ExponentDigits(rest);
      forall u | u in t
        ensures IsNumberUnit(u)
      {
        var k :| 0 <= k < |t| && t[k] == u;
        if k > 1 {
          assert u == rest[k - 1] && (digits == rest || u == digits[k - 2]);
        } else if k == 1 {
          assert u == rest[0];
        }
      }
    }
  }

  /** A fraction, or none, and an exponent, or none. */
  lemma FractionReads(t: Text) returns (fraction: Text, exponent: Text)
    requires IsFraction(t)
    ensures t == fraction + exponent && FractionWritten(fraction) && ExponentWritten(exponent)
  {
    if t != [] && t[0] == '.' as int {
      var n := DropsDigits(t[1..]);
      fraction, exponent := t[..n + 1], t[1..][n..];
      assert fraction[1..] == t[1..][..n];
    } else {
      fraction, exponent := [], t;
    }
    ExponentIff(exponent);
  }

  lemma FractionIsRead(fraction: Text, exponent: Text)
    requires IsExponent(exponent) && FractionWritten(fraction)
    ensures IsFraction(fraction + exponent)
    ensures fraction + exponent != [] ==> !IsDigit((fraction + exponent)[0])
  {
    ExponentUnits(exponent);
    if fraction == [] {
      assert fraction + exponent == exponent;
    } else {
      assert (fraction + exponent)[1..] == fraction[1..] + exponent;
      DigitsAreDropped(fraction[1..], exponent);
    }
  }

  /** The sign of a number, or none, and what follows it. */
  lemma SignReads(t: Text) returns (sign: Text, digits: Text)
    requires t != []
    ensures t == sign + digits && (sign == [] || sign == ['-' as int])
    ensures digits == if t[0] == '-' as int then t[1..] else t
  {
    if t[0] == '-' as int {
      sign, digits := ['-' as int], t[1..];
    } else {
      sign, digits := [], t;
    }
  }

  /** The digits before the fraction of a number, and what follows them. */
  lemma WholeReads(digits: Text) returns (whole: Text, rest: Text)
    requires digits != [] && IsDigit(digits[0])
    ensures digits == whole + rest
    ensures whole != [] && AreDigits(whole) && (|whole| > 1 ==> whole[0] != '0' as int)
    ensures rest == if digits[0] == '0' as int then digits[1..] else DropDigits(digits)
  {
    var n := DropsDigits(digits);
    if digits[0] == '0' as int {
      n := 1;
    }
    whole, rest := digits[..n], digits[n..];
  }

  /** A number token is one of this grammar. */
  lemma NumberIsWritten(t: Text) returns (sign: Text, whole: Text, fraction: Text, exponent: Text)
    requires IsNumber(t)
    ensures t == sign + whole + fraction + exponent && IsWritten(sign, whole, fraction, exponent)
  {
    var digits, rest;
    sign, digits := SignReads(t);
    whole, rest := WholeReads(digits);
    fraction, exponent := FractionReads(rest);
    Regroup(sign, whole, rest);
    Regroup(sign + whole, fraction, exponent);
  }

  /** And every text of the grammar is one. */
  lemma WrittenIsNumber(sign: Text, whole: Text, fraction: Text, exponent: Text)
    requires IsWritten(sign, whole, fraction, exponent)
    ensures IsNumber(sign + whole + fraction + exponent)
  {
    var t := sign + whole + fraction + exponent;
    var rest := fraction + exponent;
    ExponentIff(exponent);
    FractionIsRead(fraction, exponent);
    Regroup(sign, whole, rest);
    Regroup(sign + whole, fraction, exponent);
    assert t == sign + (whole + rest);
    var digits := if t[0] == '-' as int then t[1..] else t;
    assert digits == whole + rest;
    if whole[0] == '0' as int {
      assert digits[1..] == rest;
    } else {
      DigitsAreDropped(whole, rest);
    }
    forall u | u in t
      ensures IsNumberUnit(u)
    {
      ExponentUnits(exponent);
      if u in fraction {
        var k :| 0 <= k < |fraction| && fraction[k] == u;
        assert k > 0 ==> u == fraction[1..][k - 1];
      }
    }
  }

  function TakeNumber(t: Text): (n: nat)
    ensures n <= |t|
  {
    if t != [] && IsNumberUnit(t[0]) then 1 + TakeNumber(t[1..]) else 0
  }

  // -------------------------------------------------------------- strings

  function HexDigit(d: int): Unit
    requires 0 <= d < 16
  {
    if d < 10 then 0x30 + d else 0x57 + d
  }

  function HexValue(u: Unit): (d: Option<int>)
    ensures d.Some? ==> 0 <= d.value < 16
  {
    if IsDigit(u) then Some(u - 0x30)
    else if 0x61 <= u <= 0x66 then Some(u - 0x57)
    else if 0x41 <= u <= 0x46 then Some(u - 0x37)
    else None
  }

  function UnicodeEscape(u: Unit): Text {
    [BACKSLASH, 0x75,
     HexDigit(u / 16 / 16 / 16), HexDigit(u / 16 / 16 % 16), HexDigit(u / 16 % 16), HexDigit(u % 16)]
  }

  predicate IsLead(u: Unit) {
    0xD800 <= u <= 0xDBFF
  }

  predicate IsTrail(u: Unit) {
    0xDC00 <= u <= 0xDFFF
  }

  /** The letter of a two-unit escape that JSON.stringify writes. */
  function ShortEscape(u: Unit): Option<Unit> {
    if u == QUOTE || u == BACKSLASH then Some(u)
    else if u == 0x08 then Some(0x62)
    else if u == 0x09 then Some(0x74)
    else if u == LF then Some(0x6E)
    else if u == 0x0C then Some(0x66)
    else if u == 0x0D then Some(0x72)
    else None
  }

  function EscapeUnit(u: Unit): Text {
    var letter := ShortEscape(u);
    if letter.Some? then [BACKSLASH, letter.value]
    else if u < SPACE || IsLead(u) || IsTrail(u) then UnicodeEscape(u)
    else [u]
  }

  /** What a hexadecimal digit in lower case stands for. */
  function DigitOf(u: Unit): int {
    if '0' as int <= u <= '9' as int then u - '0' as int
    else if 'a' as int <= u <= 'f' as int then u - 'a' as int + 10 else -1
  }

  lemma DigitSpells(d: int)
    requires 0 <= d < 16
    ensures DigitOf(HexDigit(d)) == d
  {
  }

  /** How JSON.stringify writes a unit: quotes, backslashes and five control
      characters by a letter; the other control characters, and surrogates that
      are alone, by four hexadecimal digits; all else as it is. */
  lemma EscapeSpells(u: Unit)
    ensures var t := EscapeUnit(u);
            if u == '"' as int || u == '\\' as int then t == ['\\' as int, u]
            else if u == 8 then t == ['\\' as int, 'b' as int]
            else if u == 9 then t == ['\\' as int, 't' as int]
            else if u == 10 then t == ['\\' as int, 'n' as int]
            else if u == 12 then t == ['\\' as int, 'f' as int]
            else if u == 13 then t == ['\\' as int, 'r' as int]
            else if u < ' ' as int || 0xD800 <= u <= 0xDFFF then
              && |t| == 6 && t[..2] == ['\\' as int, 'u' as int]
              && (forall k :: 2 <= k < 6 ==> DigitOf(t[k]) >= 0)
              && u == DigitOf(t[2]) * 4096 + DigitOf(t[3]) * 256 + DigitOf(t[4]) * 16 + DigitOf(t[5])
            else t == [u]
  {
    if u < ' ' as int || 0xD800 <= u <= 0xDFFF {
      var a, b, c := u / 16 / 16 / 16, u / 16 / 16, u / 16;
      assert u == c * 16 + u % 16 && c == b * 16 + c % 16 && b == a * 16 + b % 16;
      DigitSpells(a);
      DigitSpells(b % 16);
      DigitSpells(c % 16);
      DigitSpells(u % 16);
    }
  }

  /** The inside of a quoted string: a surrogate pair stays, a lone surrogate
      is escaped. */
  function Escaped(s: Text): Text {
    if s == [] then []
    else if IsLead(s[0]) && |s| > 1 && IsTrail(s[1]) then s[..2] + Escaped(s[2..])
    else EscapeUnit(s[0]) + Escaped(s[1..])
  }

  function Quoted(s: Text): Text {
    [QUOTE] + Escaped(s) + [QUOTE]
  }

  // ------------------------------------------------------------ key order

  /** How Array.prototype.sort compares strings. */
  predicate Less(a: Text, b: Text) {
    b != [] && (a == [] || a[0] < b[0] || (a[0] == b[0] && Less(a[1..], b[1..])))
  }

  /** A string is less than those that go on behind it, and otherwise the first
      unit in which two strings differ decides. */
  lemma {:induction false} LessIff(a: Text, b: Text)
    ensures Less(a, b) <==>
              exists k :: 0 <= k <= |a| && k < |b| && a[..k] == b[..k] && (k == |a| || a[k] < b[k])
    decreases |a|
  {
    if a != [] && b != [] && a[0] == b[0] {
      LessIff(a[1..], b[1..]);
      if k :| 0 <= k < |a| && k < |b| - 1 && a[1..][..k] == b[1..][..k] && (k == |a| - 1 || a[1..][k] < b[1..][k]) {
        assert a[..k + 1] == [a[0]] + a[1..][..k] && b[..k + 1] == [b[0]] + b[1..][..k];
        assert a[..k + 1] == b[..k + 1];
      }
      if k :| 0 <= k <= |a| && k < |b| && a[..k] == b[..k] && (k == |a| || a[k] < b[k]) {
        assert k > 0;
        assert a[1..][..k - 1] == a[..k][1..] && b[1..][..k - 1] == b[..k][1..];
        assert a[1..][..k - 1] == b[1..][..k - 1];
      }
    } else if b != [] {
      assert a[..0] == b[..0];
    }
  }

  function Place<V>(entry: (Text, V), sorted: seq<(Text, V)>): seq<(Text, V)> {
    if sorted == [] || Less(entry.0, sorted[0].0) then [entry] + sorted
    else [sorted[0]] + Place(entry, sorted[1..])
  }

  function SortByKey<V>(entries: seq<(Text, V)>): seq<(Text, V)> {
    if entries == [] then [] else Place(entries[0], SortByKey(entries[1..]))
  }

  // ----------------------------------------------------------- stableJson

  function StableItems(items: seq<Json>): Text
    decreases items
  {
    if items == [] then []
    else Stable(items[0]) + if |items| == 1 then [] else [COMMA] + StableItems(items[1..])
  }

  function StableEntries(members: seq<Member>): (entries: seq<(Text, Text)>)
    ensures |entries| == |members|
    decreases members
  {
    if members == [] then []
    else [(members[0].key, Stable(members[0].value))] + StableEntries(members[1..])
  }

  function JoinEntries(entries: seq<(Text, Text)>): Text {
    if entries == [] then []
    else Quoted(entries[0].0) + [COLON] + entries[0].1
         + if |entries| == 1 then [] else [COMMA] + JoinEntries(entries[1..])
  }

  function Stable(v: Json): Text
    decreases v
  {
    match v
    case Null => NULL_WORD
    case Bool(b) => if b then TRUE_WORD else FALSE_WORD
    case Number(token) => token
    case Str(s) => Quoted(s)
    case Arr(items) => [LEFT_BRACKET] + StableItems(items) + [RIGHT_BRACKET]
    case Obj(members) => [LEFT_BRACE] + JoinEntries(SortByKey(StableEntries(members))) + [RIGHT_BRACE]
  }

  // -------------------------------------------------------------- meaning

  /** What JSON.parse can return: number tokens, and no key twice. */
  predicate IsJson(v: Json)
    decreases v
  {
    match v
    case Number(token) => IsNumber(token)
    case Arr(items) => forall i :: 0 <= i < |items| ==> IsJson(items[i])
    case Obj(members) =>
      && (forall i :: 0 <= i < |members| ==> IsJson(members[i].value))
      && (forall i, j :: 0 <= i < j < |members| ==> members[i].key != members[j].key)
    case _ => true
  }

  /** Equal up to the order of object members. */
  predicate Same(a: Json, b: Json)
    decreases a
  {
    match a
    case Arr(items) =>
      && b.Arr? && |b.items| == |items|
      && forall i :: 0 <= i < |items| ==> Same(items[i], b.items[i])
    case Obj(members) =>
      && b.Obj? && |b.members| == |members|
      && forall i :: 0 <= i < |members| ==>
           exists j :: 0 <= j < |b.members| && b.members[j].key == members[i].key
                       && Same(members[i].value, b.members[j].value)
    case _ => a == b
  }

  // --------------------------------------------------------------- parser

  function SkipSpace(t: Text): (rest: Text)
    ensures |rest| <= |t|
  {
    if t != [] && t[0] in {SPACE, 0x09, LF, 0x0D} then SkipSpace(t[1..]) else t
  }

  function LongEscape(letter: Unit): Option<Unit> {
    if letter == QUOTE || letter == BACKSLASH || letter == 0x2F then Some(letter)
    else if letter == 0x62 then Some(0x08)
    else if letter == 0x74 then Some(0x09)
    else if letter == 0x6E then Some(LF)
    else if letter == 0x66 then Some(0x0C)
    else if letter == 0x72 then Some(0x0D)
    else None
  }

  function ParseHex(t: Text): Option<Unit>
    requires |t| >= 4
  {
    var a, b, c, d := HexValue(t[0]), HexValue(t[1]), HexValue(t[2]), HexValue(t[3]);
    if a.Some? && b.Some? && c.Some? && d.Some?
    then Some(((a.value * 16 + b.value) * 16 + c.value) * 16 + d.value)
    else None
  }

  /** One unit of a string, and how much text it takes. */
  function ParseUnit(t: Text): (r: Option<(Unit, nat)>)
    requires t != []
    ensures r.Some? ==> 0 < r.value.1 <= |t|
  {
    if t[0] != BACKSLASH then
      if t[0] < SPACE then None else Some((t[0], 1))
    else if |t| < 2 then None
    else if t[1] == 0x75 then
      if |t| < 6 then None
      else var unit := ParseHex(t[2..]); if unit.Some? then Some((unit.value, 6)) else None
    else
      var unit := LongEscape(t[1]);
      if unit.Some? then Some((unit.value, 2)) else None
  }

  /** The text after an opening quote: the string and what follows it. */
  function ParseString(t: Text): (r: Option<(Text, Text)>)
    ensures r.Some? ==> |r.value.1| < |t|
    decreases |t|
  {
    if t == [] then None
    else if t[0] == QUOTE then Some(([], t[1..]))
    else
      var first := ParseUnit(t);
      if first.None? then None
      else
        var more := ParseString(t[first.value.1..]);
        if more.None? then None else Some(([first.value.0] + more.value.0, more.value.1))
  }

  function ParseValue(t: Text): (r: Option<(Json, Text)>)
    ensures r.Some? ==> |r.value.1| < |t|
    decreases |t|, 0
  {
    var t := SkipSpace(t);
    if t == [] then None
    else if NULL_WORD <= t then Some((Null, t[4..]))
    else if TRUE_WORD <= t then Some((Bool(true), t[4..]))
    else if FALSE_WORD <= t then Some((Bool(false), t[5..]))
    else if t[0] == QUOTE then
      var s := ParseString(t[1..]);
      if s.Some? then Some((Str(s.value.0), s.value.1)) else None
    else if t[0] == LEFT_BRACKET then
      var inside := SkipSpace(t[1..]);
      if inside != [] && inside[0] == RIGHT_BRACKET then Some((Arr([]), inside[1..]))
      else
        var items := ParseItems(inside);
        if items.Some? then Some((Arr(items.value.0), items.value.1)) else None
    else if t[0] == LEFT_BRACE then
      var inside := SkipSpace(t[1..]);
      if inside != [] && inside[0] == RIGHT_BRACE then Some((Obj([]), inside[1..]))
      else
        var members := ParseMembers(inside);
        if members.Some? then Some((Obj(members.value.0), members.value.1)) else None
    else
      var n := TakeNumber(t);
      if n > 0 && IsNumber(t[..n]) then Some((Number(t[..n]), t[n..])) else None
  }

  /** Items up to and with the closing bracket. */
  function ParseItems(t: Text): (r: Option<(seq<Json>, Text)>)
    ensures r.Some? ==> |r.value.1| < |t|
    decreases |t|, 1
  {
    var first := ParseValue(t);
    if first.None? then None
    else
      var rest := SkipSpace(first.value.1);
      if rest == [] then None
      else if rest[0] == RIGHT_BRACKET then Some(([first.value.0], rest[1..]))
      else if rest[0] != COMMA then None
      else
        var more := ParseItems(rest[1..]);
        if more.None? then None else Some(([first.value.0] + more.value.0, more.value.1))
  }

  function ParseMember(t: Text): (r: Option<(Member, Text)>)
    ensures r.Some? ==> |r.value.1| < |t|
    decreases |t|, 1
  {
    var t := SkipSpace(t);
    if t == [] || t[0] != QUOTE then None
    else
      var key := ParseString(t[1..]);
      if key.None? then None
      else
        var rest := SkipSpace(key.value.1);
        if rest == [] || rest[0] != COLON then None
        else
          var value := ParseValue(rest[1..]);
          if value.None? then None else Some((Member(key.value.0, value.value.0), value.value.1))
  }

  /** Members up to and with the closing brace. */
  function ParseMembers(t: Text): (r: Option<(seq<Member>, Text)>)
    ensures r.Some? ==> |r.value.1| < |t|
    decreases |t|, 2
  {
    var first := ParseMember(t);
    if first.None? then None
    else
      var rest := SkipSpace(first.value.1);
      if rest == [] then None
      else if rest[0] == RIGHT_BRACE then Some(([first.value.0], rest[1..]))
      else if rest[0] != COMMA then None
      else
        var more := ParseMembers(rest[1..]);
        if more.None? then None else Some(([first.value.0] + more.value.0, more.value.1))
  }

  /** A JSON text: one value with nothing but space around it. */
  function Parse(t: Text): Option<Json> {
    var r := ParseValue(t);
    if r.Some? && SkipSpace(r.value.1) == [] then Some(r.value.0) else None
  }

  // ------------------------------------------------- the parser inverts it

  lemma HexDigitValue(d: int)
    requires 0 <= d < 16
    ensures HexValue(HexDigit(d)) == Some(d)
  {
  }

  lemma HexRoundTrip(u: Unit)
    ensures ParseHex(UnicodeEscape(u)[2..]) == Some(u)
  {
    var a, b, c, d := u / 16 / 16 / 16, u / 16 / 16 % 16, u / 16 % 16, u % 16;
    HexDigitValue(a);
    HexDigitValue(b);
    HexDigitValue(c);
    HexDigitValue(d);
    assert UnicodeEscape(u)[2..] == [HexDigit(a), HexDigit(b), HexDigit(c), HexDigit(d)];
    assert u == ((a * 16 + b) * 16 + c) * 16 + d;
  }

  lemma ParseHexEscape(escape: Text, u: Unit, rest: Text)
    requires |escape| == 6 && escape[0] == BACKSLASH && escape[1] == 0x75
    requires ParseHex(escape[2..]) == Some(u)
    ensures ParseUnit(escape + rest) == Some((u, 6))
  {
    var t := escape + rest;
    assert t[2..][0] == escape[2..][0] && t[2..][1] == escape[2..][1]
        && t[2..][2] == escape[2..][2] && t[2..][3] == escape[2..][3];
  }

  lemma EscapeRoundTrip(u: Unit, rest: Text)
    ensures ParseUnit(EscapeUnit(u) + rest) == Some((u, |EscapeUnit(u)|))
    ensures (EscapeUnit(u) + rest)[0] != QUOTE
    ensures LF !in EscapeUnit(u)
  {
    if ShortEscape(u).None? && |EscapeUnit(u)| == 6 {
      HexRoundTrip(u);
      ParseHexEscape(UnicodeEscape(u), u, rest);
    }
  }

  lemma ParseOneUnit(t: Text, u: Unit, n: nat, s: Text, rest: Text)
    requires t != [] && t[0] != QUOTE && ParseUnit(t) == Some((u, n))
    requires ParseString(t[n..]) == Some((s, rest))
    ensures ParseString(t) == Some(([u] + s, rest))
  {
  }

  lemma ParseRawUnit(u: Unit, after: Text, s: Text, rest: Text)
    requires u >= SPACE && u != QUOTE && u != BACKSLASH
    requires ParseString(after) == Some((s, rest))
    ensures ParseString([u] + after) == Some(([u] + s, rest))
  {
    assert ([u] + after)[1..] == after;
    ParseOneUnit([u] + after, u, 1, s, rest);
  }

  lemma Assoc(a: Text, b: Text, c: Text)
    ensures (a + b) + c == a + (b + c)
  {
  }

  /** A surrogate pair in front of a text that is read as `more`. */
  lemma ParsePair(lead: Unit, trail: Unit, after: Text, more: Text, rest: Text)
    requires IsLead(lead) && IsTrail(trail) && ParseString(after) == Some((more, rest))
    ensures ParseString([lead, trail] + after) == Some(([lead, trail] + more, rest))
  {
    ParseRawUnit(trail, after, more, rest);
    ParseRawUnit(lead, [trail] + after, [trail] + more, rest);
    assert [lead, trail] + after == [lead] + ([trail] + after);
    assert [lead, trail] + more == [lead] + ([trail] + more);
  }

  lemma ParseEscaped(u: Unit, after: Text, more: Text, rest: Text)
    requires ParseString(after) == Some((more, rest))
    ensures ParseString(EscapeUnit(u) + after) == Some(([u] + more, rest))
  {
    var t := EscapeUnit(u) + after;
    EscapeRoundTrip(u, after);
    assert t[|EscapeUnit(u)|..] == after;
    ParseOneUnit(t, u, |EscapeUnit(u)|, more, rest);
  }

  lemma {:induction false} StringRoundTrip(s: Text, rest: Text)
    ensures ParseString(Escaped(s) + ([QUOTE] + rest)) == Some((s, rest))
    decreases |s|
  {
    var tail := [QUOTE] + rest;
    if s == [] {
      assert Escaped(s) + tail == tail;
      assert tail[1..] == rest;
    } else if IsLead(s[0]) && |s| > 1 && IsTrail(s[1]) {
      StringRoundTrip(s[2..], rest);
      ParsePair(s[0], s[1], Escaped(s[2..]) + tail, s[2..], rest);
      assert s[..2] == [s[0], s[1]] && s[..2] + s[2..] == s;
      Assoc(s[..2], Escaped(s[2..]), tail);
    } else {
      StringRoundTrip(s[1..], rest);
      ParseEscaped(s[0], Escaped(s[1..]) + tail, s[1..], rest);
      assert [s[0]] + s[1..] == s;
      Assoc(EscapeUnit(s[0]), Escaped(s[1..]), tail);
    }
  }

  lemma {:induction false} NumberRoundTrip(token: Text, rest: Text)
    requires forall u :: u in token ==> IsNumberUnit(u)
    requires rest == [] || !IsNumberUnit(rest[0])
    ensures TakeNumber(token + rest) == |token|
    decreases |token|
  {
    if token == [] {
      assert token + rest == rest;
    } else {
      assert (token + rest)[1..] == token[1..] + rest;
      NumberRoundTrip(token[1..], rest);
    }
  }

  /** The value with the members of every object in key order. */
  function CanonicalItems(items: seq<Json>): (r: seq<Json>)
    ensures |r| == |items|
    decreases items
  {
    if items == [] then [] else [Canonical(items[0])] + CanonicalItems(items[1..])
  }

  function CanonicalEntries(members: seq<Member>): (r: seq<(Text, Json)>)
    ensures |r| == |members|
    decreases members
  {
    if members == [] then []
    else [(members[0].key, Canonical(members[0].value))] + CanonicalEntries(members[1..])
  }

  function AsMembers(entries: seq<(Text, Json)>): (r: seq<Member>)
    ensures |r| == |entries|
  {
    if entries == [] then [] else [Member(entries[0].0, entries[0].1)] + AsMembers(entries[1..])
  }

  function Canonical(v: Json): Json
    decreases v
  {
    match v
    case Arr(items) => Arr(CanonicalItems(items))
    case Obj(members) => Obj(AsMembers(SortByKey(CanonicalEntries(members))))
    case _ => v
  }

  /** JSON text of a value as it stands, in the style of JSON.stringify. */
  function PrintItems(items: seq<Json>): Text
    decreases items
  {
    if items == [] then []
    else Print(items[0]) + if |items| == 1 then [] else [COMMA] + PrintItems(items[1..])
  }

  function PrintMembers(members: seq<Member>): Text
    decreases members
  {
    if members == [] then []
    else Quoted(members[0].key) + [COLON] + Print(members[0].value)
         + if |members| == 1 then [] else [COMMA] + PrintMembers(members[1..])
  }

  function Print(v: Json): Text
    decreases v
  {
    match v
    case Null => NULL_WORD
    case Bool(b) => if b then TRUE_WORD else FALSE_WORD
    case Number(token) => token
    case Str(s) => Quoted(s)
    case Arr(items) => [LEFT_BRACKET] + PrintItems(items) + [RIGHT_BRACKET]
    case Obj(members) => [LEFT_BRACE] + PrintMembers(members) + [RIGHT_BRACE]
  }

  /** What may follow a value inside a text. */
  predicate Delimits(rest: Text) {
    rest == [] || rest[0] in {COMMA, RIGHT_BRACKET, RIGHT_BRACE}
  }

  /** The first unit of a value's text. */
  predicate Opens(t: Text) {
    t != [] && (IsDigit(t[0]) || t[0] in {0x2D, QUOTE, LEFT_BRACKET, LEFT_BRACE, 0x6E, 0x74, 0x66})
  }

  /** `text` is one line, it is the text of `v`, and it reads back as `v`
      whatever delimiter follows. */
  ghost predicate ReadsAs(text: Text, v: Json) {
    text == Print(v) && Opens(text) && LF !in text
    && forall rest: Text :: Delimits(rest) ==> ParseValue(text + rest) == Some((v, rest))
  }

  lemma WordReads(word: Text, v: Json)
    requires (word == NULL_WORD && v == Null) || (word == TRUE_WORD && v == Bool(true))
             || (word == FALSE_WORD && v == Bool(false))
    ensures ReadsAs(word, v)
  {
    forall rest: Text | Delimits(rest)
      ensures ParseValue(word + rest) == Some((v, rest))
    {
      assert (word + rest)[|word|..] == rest;
      assert word <= word + rest;
    }
  }

  lemma NumberReads(token: Text)
    requires IsNumber(token)
    ensures ReadsAs(token, Number(token))
  {
    assert token[0] in token;
    forall rest: Text | Delimits(rest)
      ensures ParseValue(token + rest) == Some((Number(token), rest))
    {
      NumberRoundTrip(token, rest);
      assert (token + rest)[..|token|] == token && (token + rest)[|token|..] == rest;
    }
  }

  lemma {:induction false} EscapedIsOneLine(s: Text)
    ensures LF !in Escaped(s)
    decreases |s|
  {
    if s == [] {
    } else if IsLead(s[0]) && |s| > 1 && IsTrail(s[1]) {
      EscapedIsOneLine(s[2..]);
    } else {
      EscapedIsOneLine(s[1..]);
      EscapeRoundTrip(s[0], []);
    }
  }

  lemma Surround(open: Unit, inside: Text, close: Unit, rest: Text)
    ensures ([open] + inside + [close]) + rest == [open] + (inside + ([close] + rest))
    ensures ([open] + (inside + ([close] + rest)))[1..] == inside + ([close] + rest)
    ensures inside == [] ==> inside + ([close] + rest) == [close] + rest
    ensures ([close] + rest)[1..] == rest
  {
  }

  lemma StringStep(inside: Text, s: Text, rest: Text)
    requires ParseString(inside) == Some((s, rest))
    ensures ParseValue([QUOTE] + inside) == Some((Str(s), rest))
  {
    assert ([QUOTE] + inside)[1..] == inside;
  }

  lemma StringReads(s: Text)
    ensures ReadsAs(Quoted(s), Str(s))
  {
    EscapedIsOneLine(s);
    forall rest: Text | Delimits(rest)
      ensures ParseValue(Quoted(s) + rest) == Some((Str(s), rest))
    {
      Surround(QUOTE, Escaped(s), QUOTE, rest);
      StringRoundTrip(s, rest);
      StringStep(Escaped(s) + ([QUOTE] + rest), s, rest);
    }
  }

  lemma NoSpace(t: Text)
    requires t != [] && t[0] !in {SPACE, 0x09, LF, 0x0D}
    ensures SkipSpace(t) == t
  {
  }

  /** One item and the rest of a list. */
  lemma ItemReads(text: Text, v: Json, after: Text)
    requires ReadsAs(text, v) && after != [] && Delimits(after)
    ensures after[0] == RIGHT_BRACKET ==> ParseItems(text + after) == Some(([v], after[1..]))
    ensures after[0] == COMMA && ParseItems(after[1..]).Some? ==>
              var more := ParseItems(after[1..]).value;
              ParseItems(text + after) == Some(([v] + more.0, more.1))
  {
    assert ParseValue(text + after) == Some((v, after));
    NoSpace(after);
  }

  lemma Separate(head: Text, more: Text, tail: Text)
    ensures (head + ([COMMA] + more)) + tail == head + ([COMMA] + (more + tail))
    ensures ([COMMA] + (more + tail))[1..] == more + tail
  {
  }

  lemma {:induction false} ItemsRead(items: seq<Json>, rest: Text)
    requires items != [] && forall i :: 0 <= i < |items| ==> IsJson(items[i])
    ensures ParseItems(StableItems(items) + ([RIGHT_BRACKET] + rest)) == Some((CanonicalItems(items), rest))
    ensures Opens(StableItems(items)) && LF !in StableItems(items)
    ensures StableItems(items) == PrintItems(CanonicalItems(items))
    decreases items, 0
  {
    var close := [RIGHT_BRACKET] + rest;
    Reads(items[0]);
    var first, v := Stable(items[0]), Canonical(items[0]);
    if |items| == 1 {
      assert StableItems(items) == first;
      assert CanonicalItems(items) == [v];
      ItemReads(first, v, close);
    } else {
      ItemsRead(items[1..], rest);
      var more := StableItems(items[1..]);
      Separate(first, more, close);
      assert CanonicalItems(items)[1..] == CanonicalItems(items[1..]);
      ItemReads(first, v, [COMMA] + (more + close));
    }
  }

  /** Rendered entries, and the members they are read as. */
  ghost predicate Matching(entries: seq<(Text, Text)>, members: seq<(Text, Json)>) {
    |entries| == |members|
    && (entries == [] || (entries[0].0 == members[0].0 && ReadsAs(entries[0].1, members[0].1)
                          && Matching(entries[1..], members[1..])))
  }

  lemma {:induction false} PlaceMatches(entry: (Text, Text), member: (Text, Json),
                                        entries: seq<(Text, Text)>, members: seq<(Text, Json)>)
    requires Matching(entries, members) && entry.0 == member.0 && ReadsAs(entry.1, member.1)
    ensures Matching(Place(entry, entries), Place(member, members))
    decreases |entries|
  {
    if entries == [] || Less(entry.0, entries[0].0) {
      assert ([entry] + entries)[1..] == entries && ([member] + members)[1..] == members;
    } else {
      PlaceMatches(entry, member, entries[1..], members[1..]);
      var placed, placedMember := Place(entry, entries[1..]), Place(member, members[1..]);
      assert ([entries[0]] + placed)[1..] == placed && ([members[0]] + placedMember)[1..] == placedMember;
    }
  }

  lemma {:induction false} SortMatches(entries: seq<(Text, Text)>, members: seq<(Text, Json)>)
    requires Matching(entries, members)
    ensures Matching(SortByKey(entries), SortByKey(members))
    decreases |entries|
  {
    if entries != [] {
      SortMatches(entries[1..], members[1..]);
      PlaceMatches(entries[0], members[0], SortByKey(entries[1..]), SortByKey(members[1..]));
    }
  }

  lemma MemberStep(t: Text, key: Text, value: Text, v: Json, after: Text)
    requires t != [] && t[0] == QUOTE && ParseString(t[1..]) == Some((key, [COLON] + value))
    requires ParseValue(value) == Some((v, after))
    ensures ParseMember(t) == Some((Member(key, v), after))
  {
    NoSpace(t);
    NoSpace([COLON] + value);
    assert ([COLON] + value)[1..] == value;
  }

  lemma RegroupFour(a: Text, b: Text, c: Text, d: Text)
    ensures a + b + c + d == a + (b + (c + d))
  {
  }

  lemma MemberReads(key: Text, text: Text, v: Json, after: Text)
    requires ReadsAs(text, v) && Delimits(after)
    ensures ParseMember(Quoted(key) + [COLON] + text + after) == Some((Member(key, v), after))
  {
    var t := Quoted(key) + [COLON] + text + after;
    var colon := [COLON] + (text + after);
    RegroupFour(Quoted(key), [COLON], text, after);
    Surround(QUOTE, Escaped(key), QUOTE, colon);
    StringRoundTrip(key, colon);
    MemberStep(t, key, text + after, v, after);
  }

  lemma OneMemberReads(key: Text, text: Text, v: Json, after: Text)
    requires ReadsAs(text, v) && after != [] && Delimits(after)
    ensures var t := Quoted(key) + [COLON] + text + after;
            && (after[0] == RIGHT_BRACE ==> ParseMembers(t) == Some(([Member(key, v)], after[1..])))
            && (after[0] == COMMA && ParseMembers(after[1..]).Some? ==>
                  var more := ParseMembers(after[1..]).value;
                  ParseMembers(t) == Some(([Member(key, v)] + more.0, more.1)))
  {
    MemberReads(key, text, v, after);
    NoSpace(after);
  }

  lemma {:induction false} MembersRead(entries: seq<(Text, Text)>, members: seq<(Text, Json)>, rest: Text)
    requires entries != [] && Matching(entries, members)
    ensures ParseMembers(JoinEntries(entries) + ([RIGHT_BRACE] + rest)) == Some((AsMembers(members), rest))
    decreases |entries|
  {
    var close := [RIGHT_BRACE] + rest;
    var key, text, v := entries[0].0, entries[0].1, members[0].1;
    var head := Quoted(key) + [COLON] + text;
    if |entries| == 1 {
      OneMemberReads(key, text, v, close);
      assert JoinEntries(entries) == head;
      assert AsMembers(members) == [Member(key, v)];
    } else {
      MembersRead(entries[1..], members[1..], rest);
      var more := JoinEntries(entries[1..]);
      Separate(head, more, close);
      OneMemberReads(key, text, v, [COMMA] + (more + close));
    }
  }

  lemma {:induction false} MembersPrint(entries: seq<(Text, Text)>, members: seq<(Text, Json)>)
    requires entries != [] && Matching(entries, members)
    ensures JoinEntries(entries) != [] && JoinEntries(entries)[0] == QUOTE && LF !in JoinEntries(entries)
    ensures JoinEntries(entries) == PrintMembers(AsMembers(members))
    decreases |entries|
  {
    EscapedIsOneLine(entries[0].0);
    if |entries| > 1 {
      MembersPrint(entries[1..], members[1..]);
      assert AsMembers(members)[1..] == AsMembers(members[1..]);
    }
  }

  lemma {:induction false} EntriesMatch(members: seq<Member>)
    requires forall i :: 0 <= i < |members| ==> IsJson(members[i].value)
    ensures Matching(StableEntries(members), CanonicalEntries(members))
    decreases members, 0
  {
    if members != [] {
      Reads(members[0].value);
      EntriesMatch(members[1..]);
      assert StableEntries(members)[1..] == StableEntries(members[1..]);
      assert CanonicalEntries(members)[1..] == CanonicalEntries(members[1..]);
    }
  }

  lemma ArrayStep(inside: Text, items: seq<Json>, rest: Text)
    requires Opens(inside) && ParseItems(inside) == Some((items, rest))
    ensures ParseValue([LEFT_BRACKET] + inside) == Some((Arr(items), rest))
  {
    var t := [LEFT_BRACKET] + inside;
    NoSpace(t);
    NoSpace(inside);
    assert t[1..] == inside;
  }

  lemma EmptyStep(open: Unit, close: Unit, rest: Text)
    requires (open, close) in {(LEFT_BRACKET, RIGHT_BRACKET), (LEFT_BRACE, RIGHT_BRACE)}
    ensures ParseValue([open] + ([close] + rest)) ==
              Some((if open == LEFT_BRACE then Obj([]) else Arr([]), rest))
  {
    var inside := [close] + rest;
    NoSpace([open] + inside);
    NoSpace(inside);
    assert ([open] + inside)[1..] == inside;
    assert inside[1..] == rest;
  }

  lemma ObjectStep(inside: Text, members: seq<Member>, rest: Text)
    requires inside != [] && inside[0] == QUOTE && ParseMembers(inside) == Some((members, rest))
    ensures ParseValue([LEFT_BRACE] + inside) == Some((Obj(members), rest))
  {
    var t := [LEFT_BRACE] + inside;
    NoSpace(t);
    NoSpace(inside);
    assert t[1..] == inside;
  }

  lemma ArrayReads(items: seq<Json>)
    requires forall i :: 0 <= i < |items| ==> IsJson(items[i])
    ensures ReadsAs(Stable(Arr(items)), Canonical(Arr(items)))
    decreases items, 1
  {
    var inside := StableItems(items);
    if items != [] {
      ItemsRead(items, []);
    }
    forall rest: Text | Delimits(rest)
      ensures ParseValue(Stable(Arr(items)) + rest) == Some((Canonical(Arr(items)), rest))
    {
      Surround(LEFT_BRACKET, inside, RIGHT_BRACKET, rest);
      if items == [] {
        EmptyStep(LEFT_BRACKET, RIGHT_BRACKET, rest);
      } else {
        ItemsRead(items, rest);
        ArrayStep(inside + ([RIGHT_BRACKET] + rest), CanonicalItems(items), rest);
      }
    }
  }

  lemma EntriesRead(entries: seq<(Text, Text)>, members: seq<(Text, Json)>)
    requires Matching(entries, members)
    ensures ReadsAs([LEFT_BRACE] + JoinEntries(entries) + [RIGHT_BRACE], Obj(AsMembers(members)))
  {
    var inside := JoinEntries(entries);
    if entries != [] {
      MembersPrint(entries, members);
    }
    forall rest: Text | Delimits(rest)
      ensures ParseValue([LEFT_BRACE] + inside + [RIGHT_BRACE] + rest) == Some((Obj(AsMembers(members)), rest))
    {
      Surround(LEFT_BRACE, inside, RIGHT_BRACE, rest);
      if entries == [] {
        EmptyStep(LEFT_BRACE, RIGHT_BRACE, rest);
      } else {
        MembersRead(entries, members, rest);
        ObjectStep(inside + ([RIGHT_BRACE] + rest), AsMembers(members), rest);
      }
    }
  }

  lemma ObjectReads(members: seq<Member>)
    requires forall i :: 0 <= i < |members| ==> IsJson(members[i].value)
    ensures ReadsAs(Stable(Obj(members)), Canonical(Obj(members)))
    decreases members, 1
  {
    EntriesMatch(members);
    SortMatches(StableEntries(members), CanonicalEntries(members));
    EntriesRead(SortByKey(StableEntries(members)), SortByKey(CanonicalEntries(members)));
  }

  /** Reading the text of a value gives the value in canonical order. */
  lemma {:induction false} Reads(v: Json)
    requires IsJson(v)
    ensures ReadsAs(Stable(v), Canonical(v))
    decreases v
  {
    match v
    case Null => WordReads(NULL_WORD, v);
    case Bool(b) => WordReads(if b then TRUE_WORD else FALSE_WORD, v);
    case Number(token) => NumberReads(token);
    case Str(s) => StringReads(s);
    case Arr(items) => ArrayReads(items);
    case Obj(members) => ObjectReads(members);
  }

  lemma ParseInvertsStable(v: Json)
    requires IsJson(v)
    ensures Parse(Stable(v)) == Some(Canonical(v))
  {
    Reads(v);
    assert Delimits([]);
    assert Stable(v) + [] == Stable(v);
  }

  // -------------------------------------------------------- sorted members

  lemma {:induction false} LessIsTotal(a: Text, b: Text)
    ensures Less(a, b) ==> !Less(b, a)
    ensures Less(a, b) || Less(b, a) || a == b
    ensures !Less(a, a)
    decreases |a|
  {
    if a != [] {
      LessIsTotal(a[1..], a[1..]);
      if b != [] {
        LessIsTotal(a[1..], b[1..]);
        assert a == [a[0]] + a[1..] && b == [b[0]] + b[1..];
      }
    }
  }

  lemma {:induction false} LessIsTransitive(a: Text, b: Text, c: Text)
    requires Less(a, b) && Less(b, c)
    ensures Less(a, c)
    decreases |a|
  {
    if a != [] && a[0] == b[0] == c[0] {
      LessIsTransitive(a[1..], b[1..], c[1..]);
    }
  }

  predicate Ascending<V>(entries: seq<(Text, V)>) {
    forall i, j :: 0 <= i < j < |entries| ==> Less(entries[i].0, entries[j].0)
  }

  predicate DistinctKeys<V>(entries: seq<(Text, V)>) {
    forall i, j :: 0 <= i < j < |entries| ==> entries[i].0 != entries[j].0
  }

  lemma {:induction false} PlacePermutes<V>(entry: (Text, V), sorted: seq<(Text, V)>)
    ensures multiset(Place(entry, sorted)) == multiset(sorted) + multiset{entry}
    decreases |sorted|
  {
    if sorted != [] && !Less(entry.0, sorted[0].0) {
      PlacePermutes(entry, sorted[1..]);
      assert sorted == [sorted[0]] + sorted[1..];
    }
  }

  lemma {:induction false} SortPermutes<V>(entries: seq<(Text, V)>)
    ensures multiset(SortByKey(entries)) == multiset(entries)
    decreases |entries|
  {
    if entries != [] {
      SortPermutes(entries[1..]);
      PlacePermutes(entries[0], SortByKey(entries[1..]));
      assert entries == [entries[0]] + entries[1..];
    }
  }

  lemma PermutedAt<V>(a: seq<(Text, V)>, b: seq<(Text, V)>, k: nat) returns (j: nat)
    requires multiset(a) == multiset(b) && k < |a|
    ensures j < |b| && b[j] == a[k]
  {
    assert a[k] in multiset(a);
    j :| j < |b| && b[j] == a[k];
  }

  lemma {:induction false} PlaceSorts<V>(entry: (Text, V), sorted: seq<(Text, V)>)
    requires Ascending(sorted) && forall k :: 0 <= k < |sorted| ==> sorted[k].0 != entry.0
    ensures Ascending(Place(entry, sorted))
    decreases |sorted|
  {
    if sorted != [] {
      LessIsTotal(entry.0, sorted[0].0);
      if Less(entry.0, sorted[0].0) {
        forall k | 0 < k < |sorted|
          ensures Less(entry.0, sorted[k].0)
        {
          LessIsTransitive(entry.0, sorted[0].0, sorted[k].0);
        }
      } else {
        PlaceSorts(entry, sorted[1..]);
        PlacePermutes(entry, sorted[1..]);
        var placed := Place(entry, sorted[1..]);
        forall k | 0 <= k < |placed|
          ensures Less(sorted[0].0, placed[k].0)
        {
          var j := PermutedAt(placed, sorted[1..] + [entry], k);
        }
      }
    }
  }

  lemma {:induction false} SortSorts<V>(entries: seq<(Text, V)>)
    requires DistinctKeys(entries)
    ensures Ascending(SortByKey(entries))
    decreases |entries|
  {
    if entries != [] {
      SortSorts(entries[1..]);
      SortPermutes(entries[1..]);
      var sorted := SortByKey(entries[1..]);
      forall k | 0 <= k < |sorted|
        ensures sorted[k].0 != entries[0].0
      {
        var j := PermutedAt(sorted, entries[1..], k);
      }
      PlaceSorts(entries[0], sorted);
    }
  }

  lemma SameFirst<V>(a: seq<(Text, V)>, b: seq<(Text, V)>)
    requires Ascending(a) && Ascending(b) && multiset(a) == multiset(b) && |a| > 0 && |b| > 0
    ensures a[0] == b[0]
  {
    var j := PermutedAt(a, b, 0);
    var i := PermutedAt(b, a, 0);
    LessIsTotal(a[0].0, b[0].0);
  }

  lemma CancelOne<T>(m: multiset<T>, n: multiset<T>, x: T)
    requires m + multiset{x} == n + multiset{x}
    ensures m == n
  {
    assert m == m + multiset{x} - multiset{x} && n == n + multiset{x} - multiset{x};
  }

  lemma {:induction false} AscendingIsUnique<V>(a: seq<(Text, V)>, b: seq<(Text, V)>)
    requires Ascending(a) && Ascending(b) && multiset(a) == multiset(b)
    ensures a == b
    decreases |a|
  {
    assert |multiset(a)| == |a| && |multiset(b)| == |b|;
    if |a| > 0 {
      SameFirst(a, b);
      WithoutFirst(a);
      WithoutFirst(b);
      CancelOne(multiset(a[1..]), multiset(b[1..]), a[0]);
      AscendingIsUnique(a[1..], b[1..]);
      assert a == [a[0]] + a[1..] && b == [b[0]] + b[1..];
    }
  }

  ghost predicate Occurs<V>(entry: (Text, V), entries: seq<(Text, V)>) {
    exists j :: 0 <= j < |entries| && entries[j] == entry
  }

  lemma OccursElsewhere<V>(entry: (Text, V), entries: seq<(Text, V)>, j: nat)
    requires j < |entries| && Occurs(entry, entries) && entry.0 != entries[j].0
    ensures Occurs(entry, entries[..j] + entries[j + 1..])
  {
    var i :| 0 <= i < |entries| && entries[i] == entry;
    var rest := entries[..j] + entries[j + 1..];
    assert rest[if i < j then i else i - 1] == entry;
  }

  lemma WithoutEntry<V>(entries: seq<(Text, V)>, j: nat)
    requires j < |entries|
    ensures multiset(entries) == multiset(entries[..j] + entries[j + 1..]) + multiset{entries[j]}
  {
    assert entries == entries[..j] + [entries[j]] + entries[j + 1..];
  }

  lemma WithoutFirst<V>(entries: seq<(Text, V)>)
    requires |entries| > 0
    ensures multiset(entries) == multiset(entries[1..]) + multiset{entries[0]}
  {
    assert entries == [entries[0]] + entries[1..];
  }

  lemma OthersOccurElsewhere<V>(a: seq<(Text, V)>, b: seq<(Text, V)>, j: nat)
    requires DistinctKeys(a) && |a| > 0 && j < |b| && b[j] == a[0]
    requires forall k :: 0 <= k < |a| ==> Occurs(a[k], b)
    ensures DistinctKeys(a[1..]) && forall k :: 0 <= k < |a[1..]| ==> Occurs(a[1..][k], b[..j] + b[j + 1..])
  {
    forall k | 0 <= k < |a[1..]|
      ensures Occurs(a[1..][k], b[..j] + b[j + 1..])
    {
      OccursElsewhere(a[k + 1], b, j);
    }
  }

  /** Distinct entries that all occur in a list of the same size permute it. */
  lemma {:induction false} SubsetPermutes<V>(a: seq<(Text, V)>, b: seq<(Text, V)>)
    requires DistinctKeys(a) && |a| == |b|
    requires forall k :: 0 <= k < |a| ==> Occurs(a[k], b)
    ensures multiset(a) == multiset(b)
    decreases |a|
  {
    if |a| > 0 {
      assert Occurs(a[0], b);
      var j :| 0 <= j < |b| && b[j] == a[0];
      OthersOccurElsewhere(a, b, j);
      SubsetPermutes(a[1..], b[..j] + b[j + 1..]);
      WithoutFirst(a);
      WithoutEntry(b, j);
    }
  }

  /** Entries with the same elements sort to the same list. */
  lemma SameElementsSortAlike<V>(a: seq<(Text, V)>, b: seq<(Text, V)>)
    requires DistinctKeys(a) && DistinctKeys(b) && |a| == |b|
    requires forall k :: 0 <= k < |a| ==> Occurs(a[k], b)
    ensures SortByKey(a) == SortByKey(b)
  {
    SubsetPermutes(a, b);
    SortSorts(a);
    SortSorts(b);
    SortPermutes(a);
    SortPermutes(b);
    AscendingIsUnique(SortByKey(a), SortByKey(b));
  }

  // ------------------------------------------ same text, same value

  lemma {:induction false} CanonicalItemAt(items: seq<Json>, i: nat)
    requires i < |items|
    ensures CanonicalItems(items)[i] == Canonical(items[i])
    decreases |items|
  {
    if i > 0 {
      CanonicalItemAt(items[1..], i - 1);
    }
  }

  lemma {:induction false} CanonicalEntryAt(members: seq<Member>, i: nat)
    requires i < |members|
    ensures CanonicalEntries(members)[i] == (members[i].key, Canonical(members[i].value))
    decreases |members|
  {
    if i > 0 {
      CanonicalEntryAt(members[1..], i - 1);
    }
  }

  lemma {:induction false} AsMembersInjective(a: seq<(Text, Json)>, b: seq<(Text, Json)>)
    requires AsMembers(a) == AsMembers(b)
    ensures a == b
    decreases |a|
  {
    if a != [] && b != [] {
      assert AsMembers(a)[0] == AsMembers(b)[0];
      assert AsMembers(a)[1..] == AsMembers(a[1..]) && AsMembers(b)[1..] == AsMembers(b[1..]);
      AsMembersInjective(a[1..], b[1..]);
      assert a == [a[0]] + a[1..] && b == [b[0]] + b[1..];
    }
  }

  lemma CanonicalKeysDistinct(members: seq<Member>)
    requires IsJson(Obj(members))
    ensures DistinctKeys(CanonicalEntries(members))
  {
    forall i, j | 0 <= i < j < |members|
      ensures CanonicalEntries(members)[i].0 != CanonicalEntries(members)[j].0
    {
      CanonicalEntryAt(members, i);
      CanonicalEntryAt(members, j);
    }
  }

  lemma {:induction false} SameArrays(a: seq<Json>, b: seq<Json>)
    requires IsJson(Arr(a)) && IsJson(Arr(b))
    ensures Same(Arr(a), Arr(b)) <==> Canonical(Arr(a)) == Canonical(Arr(b))
    decreases a, 0
  {
    if |a| == |b| {
      forall i | 0 <= i < |a|
        ensures Same(a[i], b[i]) <==> CanonicalItems(a)[i] == CanonicalItems(b)[i]
      {
        SameIffCanonical(a[i], b[i]);
        CanonicalItemAt(a, i);
        CanonicalItemAt(b, i);
      }
    }
  }

  lemma SameObjectsMatch(a: seq<Member>, b: seq<Member>)
    requires IsJson(Obj(a)) && IsJson(Obj(b)) && Same(Obj(a), Obj(b))
    ensures Canonical(Obj(a)) == Canonical(Obj(b))
    decreases a, 0
  {
    var ea, eb := CanonicalEntries(a), CanonicalEntries(b);
    forall i | 0 <= i < |a|
      ensures Occurs(ea[i], eb)
    {
      var j :| 0 <= j < |b| && b[j].key == a[i].key && Same(a[i].value, b[j].value);
      SameIffCanonical(a[i].value, b[j].value);
      CanonicalEntryAt(a, i);
      CanonicalEntryAt(b, j);
      assert ea[i] == eb[j];
    }
    CanonicalKeysDistinct(a);
    CanonicalKeysDistinct(b);
    SameElementsSortAlike(ea, eb);
  }

  lemma EqualObjectsPermute(a: seq<Member>, b: seq<Member>)
    requires Canonical(Obj(a)) == Canonical(Obj(b))
    ensures multiset(CanonicalEntries(a)) == multiset(CanonicalEntries(b)) && |a| == |b|
  {
    var ea, eb := CanonicalEntries(a), CanonicalEntries(b);
    SortPermutes(ea);
    SortPermutes(eb);
    AsMembersInjective(SortByKey(ea), SortByKey(eb));
    assert |multiset(ea)| == |ea| && |multiset(eb)| == |eb|;
  }

  lemma MatchingObjectsSame(a: seq<Member>, b: seq<Member>)
    requires IsJson(Obj(a)) && IsJson(Obj(b)) && Canonical(Obj(a)) == Canonical(Obj(b))
    ensures Same(Obj(a), Obj(b))
    decreases a, 0
  {
    EqualObjectsPermute(a, b);
    forall i | 0 <= i < |a|
      ensures exists j :: 0 <= j < |b| && b[j].key == a[i].key && Same(a[i].value, b[j].value)
    {
      CanonicalEntryAt(a, i);
      var j := PermutedAt(CanonicalEntries(a), CanonicalEntries(b), i);
      CanonicalEntryAt(b, j);
      SameIffCanonical(a[i].value, b[j].value);
      assert b[j].key == a[i].key && Same(a[i].value, b[j].value);
    }
  }

  lemma {:induction false} SameIffCanonical(a: Json, b: Json)
    requires IsJson(a) && IsJson(b)
    ensures Same(a, b) <==> Canonical(a) == Canonical(b)
    decreases a
  {
    match a
    case Arr(items) => if b.Arr? { SameArrays(items, b.items); }
    case Obj(members) =>
      if b.Obj? {
        if Same(a, b) { SameObjectsMatch(members, b.members); }
        if Canonical(a) == Canonical(b) { MatchingObjectsSame(members, b.members); }
      }
    case _ =>
  }

  /** Two values have the same text exactly when they are equal up to the
      order of object members, so a fingerprint before hashing is a plan. */
  lemma SameTextIffSameValue(a: Json, b: Json)
    requires IsJson(a) && IsJson(b)
    ensures Stable(a) == Stable(b) <==> Same(a, b)
  {
    SameIffCanonical(a, b);
    Reads(a);
    Reads(b);
    if Stable(a) == Stable(b) {
      ParseInvertsStable(a);
      ParseInvertsStable(b);
    }
  }

  /** What `createPlannerProposalSubmissionId` hashes. */
  function SubmissionText(sessionId: Text, turnId: Text, plan: Json): Text {
    sessionId + [LF] + turnId + [LF] + Stable(plan)
  }

  lemma LastLineSplits(a: Text, x: Text, b: Text, y: Text)
    requires LF !in x && LF !in y && a + [LF] + x == b + [LF] + y
    ensures a == b && x == y
  {
    var t := a + [LF] + x;
    assert t[|a|] == LF && t[|b|] == LF;
    assert a == t[..|a|] && b == t[..|b|];
    assert x == t[|a| + 1..] && y == t[|b| + 1..];
  }

  lemma FirstLineSplits(a: Text, x: Text, b: Text, y: Text)
    requires LF !in a && LF !in b && a + [LF] + x == b + [LF] + y
    ensures a == b && x == y
  {
    var t := a + [LF] + x;
    assert t[|a|] == LF && t[|b|] == LF;
    assert a == t[..|a|] && b == t[..|b|];
    assert x == t[|a| + 1..] && y == t[|b| + 1..];
  }

  /** The hashed text of a submission tells plans apart always, and sessions
      and turns apart when the session ids hold no line feed. */
  lemma SubmissionTextIdentifies(s1: Text, t1: Text, plan1: Json, s2: Text, t2: Text, plan2: Json)
    requires IsJson(plan1) && IsJson(plan2)
    ensures SubmissionText(s1, t1, plan1) == SubmissionText(s2, t2, plan2) <==>
              s1 + [LF] + t1 == s2 + [LF] + t2 && Same(plan1, plan2)
    ensures LF !in s1 && LF !in s2 ==>
              (SubmissionText(s1, t1, plan1) == SubmissionText(s2, t2, plan2) <==>
                 s1 == s2 && t1 == t2 && Same(plan1, plan2))
  {
    Reads(plan1);
    Reads(plan2);
    SameTextIffSameValue(plan1, plan2);
    if SubmissionText(s1, t1, plan1) == SubmissionText(s2, t2, plan2) {
      LastLineSplits(s1 + [LF] + t1, Stable(plan1), s2 + [LF] + t2, Stable(plan2));
    }
    if LF !in s1 && LF !in s2 && s1 + [LF] + t1 == s2 + [LF] + t2 {
      FirstLineSplits(s1, t1, s2, t2);
    }
  }

  /** A line feed in a session id can move into the turn id unnoticed. */
  lemma LineFeedConfusesSubmissions(a: Text, b: Text, c: Text, plan: Json)
    ensures SubmissionText(a + [LF] + b, c, plan) == SubmissionText(a, b + [LF] + c, plan)
    ensures a + [LF] + b != a
  {
    assert a + [LF] + b + [LF] + c == a + [LF] + (b + [LF] + c);
    assert |a + [LF] + b| > |a|;
  }
}
