// A parser that undoes the canonical printer, for either writer: so no two values share a text.
module CanonicalParser {
  import opened Wrappers
  import opened CanonicalJson

  datatype Parsed<+T> = Got(value: T, rest: string) | Bad

  // --- Strings -----------------------------------------------------------------------------

  function HexDigit(c: char): Option<nat> {
    if '0' <= c <= '9' then Some((c - '0') as nat)
    else if 'a' <= c <= 'f' then Some((c - 'a') as nat + 10)
    else None
  }

  function ParseHex(t: string): Option<nat>
    requires |t| == 4
  {
    var a, b, c, d := HexDigit(t[0]), HexDigit(t[1]), HexDigit(t[2]), HexDigit(t[3]);
    if a.None? || b.None? || c.None? || d.None? then None
    else Some(((a.value * 16 + b.value) * 16 + c.value) * 16 + d.value)
  }

  function Unescape(c: char): Option<char> {
    if c == '"' || c == '\\' || c == '/' then Some(c)
    else if c == 'b' then Some('\U{0008}')
    else if c == 'f' then Some('\U{000C}')
    else if c == 'n' then Some('\n')
    else if c == 'r' then Some('\r')
    else if c == 't' then Some('\t')
    else None
  }

  // One character of a string body.
  function ScanChar(t: string): (r: Parsed<char>)
    requires t != ""
    ensures r.Got? ==> |r.rest| < |t|
  {
    if t[0] != '\\' then Got(t[0], t[1..])
    else if |t| < 2 then Bad
    else if Unescape(t[1]).Some? then Got(Unescape(t[1]).value, t[2..])
    else if t[1] != 'u' || |t| < 6 || ParseHex(t[2..6]).None? then Bad
    else
      var n := ParseHex(t[2..6]).value;
      if n < 0xD800 then Got(n as char, t[6..]) else Bad
  }

  // The rest of a string, after its opening quote.
  function ScanString(t: string): (r: Parsed<string>)
    ensures r.Got? ==> |r.rest| < |t|
  {
    if t == "" then Bad
    else if t[0] == '"' then Got("", t[1..])
    else match ScanChar(t)
      case Bad => Bad
      case Got(c, rest) =>
        match ScanString(rest)
        case Bad => Bad
        case Got(s, rest') => Got([c] + s, rest')
  }

  lemma HexDigitOf(d: nat)
    requires d < 16
    ensures HexDigit(HEX[d]) == Some(d)
  {
  }

  lemma HexRoundTrip(n: nat)
    requires n < 0x10000
    ensures ParseHex(Hex4(n)) == Some(n)
  {
    HexDigitOf(n / 16 / 16 / 16);
    HexDigitOf(n / 16 / 16 % 16);
    HexDigitOf(n / 16 % 16);
    HexDigitOf(n % 16);
  }

  lemma ShortRoundTrip(w: Writer, c: char, rest: string)
    requires ShortEscape(c).Some?
    ensures ScanChar(EscapeChar(w, c) + rest) == Got(c, rest)
  {
    var t := EscapeChar(w, c) + rest;
    assert t[0] == '\\' && t[2..] == rest;
  }

  lemma LongRoundTrip(n: nat, rest: string)
    requires n < 0xD800
    ensures ScanChar("\\u" + Hex4(n) + rest) == Got(n as char, rest)
  {
    var t := "\\u" + Hex4(n) + rest;
    HexRoundTrip(n);
    assert t[0] == '\\' && t[1] == 'u' && t[2..6] == Hex4(n) && t[6..] == rest;
    assert Unescape('u').None?;
  }

  lemma CharRoundTrip(w: Writer, c: char, rest: string)
    ensures EscapeChar(w, c)[0] != '"'
    ensures ScanChar(EscapeChar(w, c) + rest) == Got(c, rest)
  {
    if ShortEscape(c).Some? {
      ShortRoundTrip(w, c, rest);
    } else if NeedsHex(w, c) {
      LongRoundTrip(c as int, rest);
    } else {
      assert (EscapeChar(w, c) + rest)[1..] == rest;
    }
  }

  lemma ScanStep(t: string, c: char, more: string, s: string, rest: string)
    requires t != "" && t[0] != '"' && ScanChar(t) == Got(c, more) && ScanString(more) == Got(s, rest)
    ensures ScanString(t) == Got([c] + s, rest)
  {
  }

  lemma EscapeFirst(w: Writer, s: string, rest: string)
    requires s != ""
    ensures EscapeAll(w, s) + rest == EscapeChar(w, s[0]) + (EscapeAll(w, s[1..]) + rest)
  {
  }

  lemma {:induction false} StringRoundTrip(w: Writer, s: string, rest: string)
    ensures ScanString(EscapeAll(w, s) + ("\"" + rest)) == Got(s, rest)
  {
    if s == "" {
      assert EscapeAll(w, s) + ("\"" + rest) == "\"" + rest;
    } else {
      var more := EscapeAll(w, s[1..]) + ("\"" + rest);
      EscapeFirst(w, s, "\"" + rest);
      CharRoundTrip(w, s[0], more);
      StringRoundTrip(w, s[1..], rest);
      ScanStep(EscapeChar(w, s[0]) + more, s[0], more, s[1..], rest);
      assert [s[0]] + s[1..] == s;
    }
  }

  // --- Values ------------------------------------------------------------------------------

  function NumberRun(t: string): (n: nat)
    ensures n <= |t|
    ensures forall i :: 0 <= i < n ==> NumberChar(t[i])
    ensures n < |t| ==> !NumberChar(t[n])
  {
    if t == "" || !NumberChar(t[0]) then 0 else 1 + NumberRun(t[1..])
  }

  predicate Starts(t: string, prefix: string) { |prefix| <= |t| && t[..|prefix|] == prefix }

  function ParseValue(t: string): (r: Parsed<Json>)
    ensures r.Got? ==> |r.rest| < |t|
    decreases |t|, 1
  {
    if t == "" then Bad
    else if Starts(t, "null") then Got(Null, t[4..])
    else if Starts(t, "true") then Got(Bool(true), t[4..])
    else if Starts(t, "false") then Got(Bool(false), t[5..])
    else if NumberStart(t[0]) then var n := NumberRun(t); Got(Num(t[..n]), t[n..])
    else if t[0] == '"' then
      (match ScanString(t[1..])
       case Bad => Bad
       case Got(s, rest) => Got(Str(s), rest))
    else if t[0] == '[' then
      if Starts(t, "[]") then Got(Arr([]), t[2..])
      else
        (match ParseItems(t[1..])
         case Bad => Bad
         case Got(items, rest) => Got(Arr(items), rest))
    else if t[0] == '{' then
      if Starts(t, "{}") then Got(Obj(map[]), t[2..])
      else
        (match ParseMembers(t[1..])
         case Bad => Bad
         case Got(fields, rest) => Got(Obj(fields), rest))
    else Bad
  }

  // One or more elements, then the closing bracket.
  function ParseItems(t: string): (r: Parsed<seq<Json>>)
    ensures r.Got? ==> |r.rest| < |t|
    decreases |t|, 2
  {
    match ParseValue(t)
    case Bad => Bad
    case Got(v, rest) =>
      if Starts(rest, "]") then Got([v], rest[1..])
      else if !Starts(rest, ",") then Bad
      else match ParseItems(rest[1..])
        case Bad => Bad
        case Got(items, rest') => Got([v] + items, rest')
  }

  function ParseMember(t: string): (r: Parsed<(string, Json)>)
    ensures r.Got? ==> |r.rest| < |t|
    decreases |t|, 2
  {
    if !Starts(t, "\"") then Bad
    else match ScanString(t[1..])
      case Bad => Bad
      case Got(k, rest) =>
        if !Starts(rest, ":") then Bad
        else match ParseValue(rest[1..])
          case Bad => Bad
          case Got(v, rest') => Got((k, v), rest')
  }

  function ParseMembers(t: string): (r: Parsed<map<string, Json>>)
    ensures r.Got? ==> |r.rest| < |t|
    decreases |t|, 3
  {
    match ParseMember(t)
    case Bad => Bad
    case Got(m, rest) =>
      if Starts(rest, "}") then Got(map[m.0 := m.1], rest[1..])
      else if !Starts(rest, ",") then Bad
      else match ParseMembers(rest[1..])
        case Bad => Bad
        case Got(fields, rest') => Got(map[m.0 := m.1] + fields, rest')
  }

  // --- Round trip --------------------------------------------------------------------------

  // What may follow a value: nothing that a number could swallow.
  predicate Delimited(rest: string) { rest == "" || !NumberChar(rest[0]) }

  lemma NumberRoundTrip(token: string, rest: string)
    requires NumberToken(token) && Delimited(rest)
    ensures ParseValue(token + rest) == Got(Num(token), rest)
  {
    var t := token + rest;
    var n := NumberRun(t);
    assert t[0] == token[0];
    assert forall i :: 0 <= i < |token| ==> t[i] == token[i];
    assert rest != "" ==> t[|token|] == rest[0];
    assert n == |token|;
    assert t[..n] == token && t[n..] == rest;
  }

  lemma LiteralRoundTrip(v: Json, text: string, rest: string)
    requires (v == Null && text == "null") || (v == Bool(true) && text == "true") ||
      (v == Bool(false) && text == "false")
    ensures ParseValue(text + rest) == Got(v, rest)
  {
    var t := text + rest;
    assert t[..|text|] == text && t[|text|..] == rest;
    assert t[0] == text[0];
  }

  lemma QuotedRoundTrip(w: Writer, s: string, rest: string)
    ensures ParseValue(Quote(w, s) + rest) == Got(Str(s), rest)
  {
    var body := EscapeAll(w, s) + ("\"" + rest);
    StringRoundTrip(w, s, rest);
    QuoteShape(w, s, rest);
    QuotedIs(Quote(w, s) + rest, body, s, rest);
  }

  lemma QuotedIs(t: string, body: string, s: string, rest: string)
    requires t == "\"" + body && ScanString(body) == Got(s, rest)
    ensures ParseValue(t) == Got(Str(s), rest)
  {
    assert t[0] == '"' && t[1..] == body;
  }

  lemma QuoteShape(w: Writer, s: string, rest: string)
    ensures Quote(w, s) + rest == "\"" + (EscapeAll(w, s) + ("\"" + rest))
  {
  }

  lemma EmptyRoundTrip(rest: string)
    ensures ParseValue("[]" + rest) == Got(Arr([]), rest)
    ensures ParseValue("{}" + rest) == Got(Obj(map[]), rest)
  {
    assert ("[]" + rest)[..2] == "[]" && ("[]" + rest)[2..] == rest;
    assert ("{}" + rest)[..2] == "{}" && ("{}" + rest)[2..] == rest;
  }

  lemma {:induction false} RoundTrip(w: Writer, v: Json, rest: string)
    requires Normalised(v) && Delimited(rest)
    ensures ParseValue(Print(w, v) + rest) == Got(v, rest)
    decreases v, 1, 0
  {
    match v
    case Null => LiteralRoundTrip(v, "null", rest);
    case Bool(b) => LiteralRoundTrip(v, if b then "true" else "false", rest);
    case Str(s) => QuotedRoundTrip(w, s, rest);
    case Num(token) => NumberRoundTrip(token, rest);
    case Arr(items) => ArrayRoundTrip(w, v, rest);
    case Obj(fields) => ObjectRoundTrip(w, v, rest);
  }

  lemma {:induction false} ArrayRoundTrip(w: Writer, v: Json, rest: string)
    requires v.Arr? && Normalised(v)
    ensures ParseValue(Print(w, v) + rest) == Got(v, rest)
    decreases v, 0, 1 + |v.items|
  {
    ArrayShape(w, v, rest);
    if v.items == [] {
      EmptyRoundTrip(rest);
    } else {
      ItemsRoundTrip(w, v, 0, rest);
      ArrayBody(Print(w, v) + rest, ItemsText(w, v, 0, rest), v.items, rest);
    }
  }

  lemma {:induction false} ObjectRoundTrip(w: Writer, v: Json, rest: string)
    requires v.Obj? && Normalised(v)
    ensures ParseValue(Print(w, v) + rest) == Got(v, rest)
    decreases v, 0, 2 + |CanonicalKeys(v.fields.Keys)|
  {
    var keys := CanonicalKeys(v.fields.Keys);
    CanonicalKeysExact(v.fields.Keys);
    ObjectShape(w, v, rest);
    AllFields(v.fields, keys);
    if keys == [] {
      assert v.fields.Keys == {};
      EmptyRoundTrip(rest);
    } else {
      MembersRoundTrip(w, v, keys, 0, rest);
      ObjectBody(Print(w, v) + rest, MembersText(w, v, keys, 0, rest), v.fields, rest);
    }
  }

  // What is left of an array's text at its element i.
  ghost function ItemsText(w: Writer, v: Json, i: nat, rest: string): string
    requires v.Arr? && i < |v.items|
  {
    Print(w, v.items[i]) + (PrintItems(w, v, i + 1) + ("]" + rest))
  }

  ghost function MembersText(w: Writer, v: Json, keys: seq<string>, i: nat, rest: string): string
    requires v.Obj? && (forall j :: 0 <= j < |keys| ==> keys[j] in v.fields) && i < |keys|
  {
    PrintMember(w, v, keys[i]) + (PrintMembers(w, v, keys, i + 1) + ("}" + rest))
  }

  lemma Bracketed(open: string, a: string, b: string, close: string, rest: string)
    ensures (open + ("" + a + b) + close) + rest == open + (a + (b + (close + rest)))
  {
  }

  lemma Separated(comma: string, a: string, b: string, rest: string)
    ensures (comma + a + b) + rest == comma + (a + (b + rest))
  {
  }

  lemma ArrayShape(w: Writer, v: Json, rest: string)
    requires v.Arr?
    ensures Print(w, v) + rest == if v.items == [] then "[]" + rest else "[" + ItemsText(w, v, 0, rest)
  {
    if v.items == [] {
      assert Print(w, v) == "[" + "" + "]" == "[]";
    } else {
      Bracketed("[", Print(w, v.items[0]), PrintItems(w, v, 1), "]", rest);
    }
  }

  lemma ObjectShape(w: Writer, v: Json, rest: string)
    requires v.Obj?
    requires Lists(CanonicalKeys(v.fields.Keys), v.fields.Keys)
    ensures var keys := CanonicalKeys(v.fields.Keys);
            Print(w, v) + rest == if keys == [] then "{}" + rest else "{" + MembersText(w, v, keys, 0, rest)
  {
    var keys := CanonicalKeys(v.fields.Keys);
    if keys == [] {
      assert Print(w, v) == "{" + "" + "}" == "{}";
    } else {
      Bracketed("{", PrintMember(w, v, keys[0]), PrintMembers(w, v, keys, 1), "}", rest);
    }
  }

  lemma ItemsTail(w: Writer, v: Json, i: nat, rest: string)
    requires v.Arr? && i < |v.items|
    ensures PrintItems(w, v, i + 1) + ("]" + rest) ==
            if i + 1 == |v.items| then "]" + rest else "," + ItemsText(w, v, i + 1, rest)
  {
    if i + 1 == |v.items| {
      assert "" + ("]" + rest) == "]" + rest;
    } else {
      Separated(",", Print(w, v.items[i + 1]), PrintItems(w, v, i + 2), "]" + rest);
    }
  }

  lemma MembersTail(w: Writer, v: Json, keys: seq<string>, i: nat, rest: string)
    requires v.Obj? && (forall j :: 0 <= j < |keys| ==> keys[j] in v.fields) && i < |keys|
    ensures PrintMembers(w, v, keys, i + 1) + ("}" + rest) ==
            if i + 1 == |keys| then "}" + rest else "," + MembersText(w, v, keys, i + 1, rest)
  {
    if i + 1 == |keys| {
      assert "" + ("}" + rest) == "}" + rest;
    } else {
      Separated(",", PrintMember(w, v, keys[i + 1]), PrintMembers(w, v, keys, i + 2), "}" + rest);
    }
  }

  lemma MemberShape(w: Writer, v: Json, k: string, more: string)
    requires v.Obj? && k in v.fields
    ensures PrintMember(w, v, k) + more == "\"" + (EscapeAll(w, k) + ("\"" + (":" + (Print(w, v.fields[k]) + more))))
  {
    Separated(Quote(w, k), ":", Print(w, v.fields[k]), more);
    QuoteShape(w, k, ":" + (Print(w, v.fields[k]) + more));
  }

  // The fields under some of the keys.
  ghost function Fields(v: Json, keys: seq<string>): map<string, Json>
    requires v.Obj? && (forall j :: 0 <= j < |keys| ==> keys[j] in v.fields)
  {
    map k | k in keys :: v.fields[k]
  }

  lemma FieldsCons(v: Json, keys: seq<string>, i: nat)
    requires v.Obj? && (forall j :: 0 <= j < |keys| ==> keys[j] in v.fields) && i < |keys|
    ensures map[keys[i] := v.fields[keys[i]]] + Fields(v, keys[i + 1..]) == Fields(v, keys[i..])
    ensures i + 1 == |keys| ==> Fields(v, keys[i..]) == map[keys[i] := v.fields[keys[i]]]
  {
    assert keys[i..] == [keys[i]] + keys[i + 1..];
  }

  lemma AllFields(fields: map<string, Json>, keys: seq<string>)
    requires Lists(keys, fields.Keys)
    ensures keys[0..] == keys
    ensures Fields(Obj(fields), keys) == fields
  {
    forall k | k in fields ensures k in keys { assert k in fields.Keys; }
  }

  lemma NoItems(t: string)
    requires t == "" || t[0] == ']'
    ensures ParseItems(t) == Bad
  {
    assert ParseValue(t) == Bad;
  }

  lemma NoMembers(t: string)
    requires t == "" || t[0] == '}'
    ensures ParseMembers(t) == Bad
  {
    assert ParseMember(t) == Bad;
  }

  lemma Opened(open: char, close: char, t: string, body: string)
    requires t == [open] + body && body != "" && body[0] != close
    ensures t[0] == open && t[1..] == body && !Starts(t, [open, close])
  {
    assert t[..2][1] == t[1] == body[0];
  }

  lemma BracketParses(t: string, items: seq<Json>, rest: string)
    requires t != "" && t[0] == '[' && !Starts(t, "[]") && ParseItems(t[1..]) == Got(items, rest)
    ensures ParseValue(t) == Got(Arr(items), rest)
  {
  }

  lemma BraceParses(t: string, fields: map<string, Json>, rest: string)
    requires t != "" && t[0] == '{' && !Starts(t, "{}") && ParseMembers(t[1..]) == Got(fields, rest)
    ensures ParseValue(t) == Got(Obj(fields), rest)
  {
  }

  lemma ArrayBody(t: string, body: string, items: seq<Json>, rest: string)
    requires t == "[" + body && ParseItems(body) == Got(items, rest)
    ensures ParseValue(t) == Got(Arr(items), rest)
  {
    if body == "" || body[0] == ']' { NoItems(body); }
    Opened('[', ']', t, body);
    BracketParses(t, items, rest);
  }

  lemma ObjectBody(t: string, body: string, fields: map<string, Json>, rest: string)
    requires t == "{" + body && ParseMembers(body) == Got(fields, rest)
    ensures ParseValue(t) == Got(Obj(fields), rest)
  {
    if body == "" || body[0] == '}' { NoMembers(body); }
    Opened('{', '}', t, body);
    BraceParses(t, fields, rest);
  }

  lemma ItemsLast(t: string, v: Json, rest: string)
    requires ParseValue(t) == Got(v, "]" + rest)
    ensures ParseItems(t) == Got([v], rest)
  {
    assert ("]" + rest)[1..] == rest;
  }

  lemma ItemsMore(t: string, v: Json, tail: string, items: seq<Json>, rest: string)
    requires ParseValue(t) == Got(v, "," + tail) && ParseItems(tail) == Got(items, rest)
    ensures ParseItems(t) == Got([v] + items, rest)
  {
    assert ("," + tail)[1..] == tail;
  }

  lemma MemberIs(t: string, body: string, k: string, value: string, v: Json, rest: string)
    requires t == "\"" + body && ScanString(body) == Got(k, ":" + value) && ParseValue(value) == Got(v, rest)
    ensures ParseMember(t) == Got((k, v), rest)
  {
    assert t[1..] == body && (":" + value)[1..] == value;
  }

  lemma MembersLast(t: string, k: string, v: Json, rest: string)
    requires ParseMember(t) == Got((k, v), "}" + rest)
    ensures ParseMembers(t) == Got(map[k := v], rest)
  {
    assert ("}" + rest)[1..] == rest;
  }

  lemma MembersMore(t: string, k: string, v: Json, tail: string, fields: map<string, Json>, rest: string)
    requires ParseMember(t) == Got((k, v), "," + tail) && ParseMembers(tail) == Got(fields, rest)
    ensures ParseMembers(t) == Got(map[k := v] + fields, rest)
  {
    assert ("," + tail)[1..] == tail;
  }

  lemma {:induction false} ItemsRoundTrip(w: Writer, v: Json, i: nat, rest: string)
    requires v.Arr? && Normalised(v) && i < |v.items|
    ensures ParseItems(ItemsText(w, v, i, rest)) == Got(v.items[i..], rest)
    decreases v, 0, |v.items| - i
  {
    var more := PrintItems(w, v, i + 1) + ("]" + rest);
    ItemsTail(w, v, i, rest);
    RoundTrip(w, v.items[i], more);
    ItemsCons(v.items, i);
    if i + 1 == |v.items| {
      ItemsLast(ItemsText(w, v, i, rest), v.items[i], rest);
    } else {
      ItemsRoundTrip(w, v, i + 1, rest);
      ItemsMore(ItemsText(w, v, i, rest), v.items[i], ItemsText(w, v, i + 1, rest), v.items[i + 1..], rest);
    }
  }

  lemma ItemsCons<T>(items: seq<T>, i: nat)
    requires i < |items|
    ensures items[i..] == [items[i]] + items[i + 1..]
    ensures i + 1 == |items| ==> items[i..] == [items[i]]
  {
  }

  lemma MemberRoundTrip(w: Writer, v: Json, k: string, more: string)
    requires v.Obj? && k in v.fields
    requires ParseValue(Print(w, v.fields[k]) + more) == Got(v.fields[k], more)
    ensures ParseMember(PrintMember(w, v, k) + more) == Got((k, v.fields[k]), more)
  {
    var value := Print(w, v.fields[k]) + more;
    StringRoundTrip(w, k, ":" + value);
    MemberShape(w, v, k, more);
    MemberIs(PrintMember(w, v, k) + more, EscapeAll(w, k) + ("\"" + (":" + value)), k, value, v.fields[k], more);
  }

  lemma {:induction false} MembersRoundTrip(w: Writer, v: Json, keys: seq<string>, i: nat, rest: string)
    requires v.Obj? && Normalised(v) && i < |keys| && (forall j :: 0 <= j < |keys| ==> keys[j] in v.fields)
    ensures ParseMembers(MembersText(w, v, keys, i, rest)) == Got(Fields(v, keys[i..]), rest)
    decreases v, 0, 1 + |keys| - i
  {
    var more := PrintMembers(w, v, keys, i + 1) + ("}" + rest);
    var k := keys[i];
    MembersTail(w, v, keys, i, rest);
    RoundTrip(w, v.fields[k], more);
    MemberRoundTrip(w, v, k, more);
    FieldsCons(v, keys, i);
    if i + 1 == |keys| {
      MembersLast(MembersText(w, v, keys, i, rest), k, v.fields[k], rest);
    } else {
      MembersRoundTrip(w, v, keys, i + 1, rest);
      MembersMore(MembersText(w, v, keys, i, rest), k, v.fields[k], MembersText(w, v, keys, i + 1, rest),
                  Fields(v, keys[i + 1..]), rest);
    }
  }

  // The parser recovers every normalised value from its canonical text.
  lemma CanonicalRoundTrip(w: Writer, v: Json)
    requires Normalised(v)
    ensures ParseValue(Print(w, v)) == Got(v, "")
  {
    RoundTrip(w, v, "");
    assert Print(w, v) + "" == Print(w, v);
  }

  // Distinct values never share a canonical text.
  lemma Unambiguous(w: Writer, u: Json, v: Json)
    requires Normalised(u) && Normalised(v)
    ensures Print(w, u) == Print(w, v) <==> u == v
  {
    CanonicalRoundTrip(w, u);
    CanonicalRoundTrip(w, v);
  }

  // --- The two writers ---------------------------------------------------------------------

  predicate PlainString(s: string) { forall i :: 0 <= i < |s| ==> !GsonOnly(s[i]) }

  // No string and no key holds an apostrophe or an equals sign.
  predicate Plain(v: Json) {
    match v
    case Str(s) => PlainString(s)
    case Arr(items) => forall i :: 0 <= i < |items| ==> Plain(items[i])
    case Obj(fields) => forall k :: k in fields ==> PlainString(k) && Plain(fields[k])
    case _ => true
  }

  lemma CharSizes(c: char)
    ensures |EscapeChar(Gson, c)| >= |EscapeChar(Go, c)|
    ensures |EscapeChar(Gson, c)| == |EscapeChar(Go, c)| <==> !GsonOnly(c)
    ensures !GsonOnly(c) ==> EscapeChar(Gson, c) == EscapeChar(Go, c)
  {
  }

  lemma {:induction false} EscapeSizes(s: string)
    ensures |EscapeAll(Gson, s)| >= |EscapeAll(Go, s)|
    ensures PlainString(s) ==> EscapeAll(Gson, s) == EscapeAll(Go, s)
    ensures |EscapeAll(Gson, s)| == |EscapeAll(Go, s)| ==> PlainString(s)
  {
    if s != "" {
      EscapeSizes(s[1..]);
      CharSizes(s[0]);
      assert PlainString(s) <==> !GsonOnly(s[0]) && PlainString(s[1..]) by {
        assert forall i :: 0 <= i < |s[1..]| ==> s[1..][i] == s[i + 1];
        assert forall i :: 1 <= i < |s| ==> s[i] == s[1..][i - 1];
      }
    }
  }

  lemma {:induction false} PrintSizes(v: Json)
    ensures |Print(Gson, v)| >= |Print(Go, v)|
    ensures Plain(v) ==> Print(Gson, v) == Print(Go, v)
    ensures |Print(Gson, v)| == |Print(Go, v)| ==> Plain(v)
    decreases v, 1, 0
  {
    match v
    case Str(s) => EscapeSizes(s);
    case Arr(items) => ItemsSizes(v, 0);
    case Obj(fields) =>
      var keys := CanonicalKeys(fields.Keys);
      CanonicalKeysExact(fields.Keys);
      MembersSizes(v, keys, 0);
      if |Print(Gson, v)| == |Print(Go, v)| {
        forall k | k in fields ensures PlainString(k) && Plain(fields[k]) {
          var j :| 0 <= j < |keys| && keys[j] == k;
        }
      }
    case _ =>
  }

  lemma {:induction false} ItemsSizes(v: Json, i: nat)
    requires v.Arr? && i <= |v.items|
    ensures |PrintItems(Gson, v, i)| >= |PrintItems(Go, v, i)|
    ensures (forall j :: i <= j < |v.items| ==> Plain(v.items[j])) ==> PrintItems(Gson, v, i) == PrintItems(Go, v, i)
    ensures |PrintItems(Gson, v, i)| == |PrintItems(Go, v, i)| ==> forall j :: i <= j < |v.items| ==> Plain(v.items[j])
    decreases v, 0, |v.items| - i
  {
    if i < |v.items| {
      PrintSizes(v.items[i]);
      ItemsSizes(v, i + 1);
    }
  }

  lemma {:induction false} MembersSizes(v: Json, keys: seq<string>, i: nat)
    requires v.Obj? && i <= |keys| && (forall j :: 0 <= j < |keys| ==> keys[j] in v.fields)
    ensures |PrintMembers(Gson, v, keys, i)| >= |PrintMembers(Go, v, keys, i)|
    ensures (forall j :: i <= j < |keys| ==> PlainString(keys[j]) && Plain(v.fields[keys[j]])) ==>
      PrintMembers(Gson, v, keys, i) == PrintMembers(Go, v, keys, i)
    ensures |PrintMembers(Gson, v, keys, i)| == |PrintMembers(Go, v, keys, i)| ==>
      forall j :: i <= j < |keys| ==> PlainString(keys[j]) && Plain(v.fields[keys[j]])
    decreases v, 0, 1 + |keys| - i
  {
    if i < |keys| {
      EscapeSizes(keys[i]);
      PrintSizes(v.fields[keys[i]]);
      MembersSizes(v, keys, i + 1);
    }
  }

  // The server's text and the device's text of one value are equal iff the value is plain.
  lemma WritersAgree(v: Json)
    ensures Print(Go, v) == Print(Gson, v) <==> Plain(v)
  {
    PrintSizes(v);
  }

  // The server's text of one value is the device's text of another iff they are one plain value.
  lemma TextsAgree(u: Json, v: Json)
    requires Normalised(u) && Normalised(v)
    ensures Print(Go, u) == Print(Gson, v) <==> u == v && Plain(v)
  {
    CanonicalRoundTrip(Go, u);
    CanonicalRoundTrip(Gson, v);
    WritersAgree(v);
  }
}
