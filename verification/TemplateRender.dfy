// Rendering managed files for a device (server/internal/managedfiles/render.go) and the checksum
// that is advertised in the config snapshot and recomputed on download. Go visits maps in any
// order; `order` parameters are the orders it happened to choose.
module TemplateRender {
  import opened Wrappers
  import opened CanonicalJson
  import Text

  // --- strings.NewReplacer -----------------------------------------------------------------

  type Pair = (string, string)

  predicate IsPrefix(a: string, s: string) { |a| <= |s| && s[..|a|] == a }

  // The first pair, in argument order, whose key stands at the front of s.
  function FirstMatch(pairs: seq<Pair>, s: string): (r: Option<Pair>)
    ensures r.Some? ==> r.value.0 != "" && IsPrefix(r.value.0, s) &&
                        exists i :: 0 <= i < |pairs| && pairs[i] == r.value
    ensures r.None? ==> forall i :: 0 <= i < |pairs| && pairs[i].0 != "" ==> !IsPrefix(pairs[i].0, s)
  {
    if pairs == [] then None
    else if pairs[0].0 != "" && IsPrefix(pairs[0].0, s) then Some(pairs[0])
    else FirstMatch(pairs[1..], s)
  }

  // Left to right, without overlaps.
  function Replace(pairs: seq<Pair>, s: string): string
    decreases |s|
  {
    if s == "" then ""
    else match FirstMatch(pairs, s)
      case Some(p) => p.1 + Replace(pairs, s[|p.0|..])
      case None => [s[0]] + Replace(pairs, s[1..])
  }

  function Pairs(values: map<string, string>, order: seq<string>): (r: seq<Pair>)
    requires forall i :: 0 <= i < |order| ==> order[i] in values
    ensures |r| == |order| && forall i :: 0 <= i < |r| ==> r[i] == (order[i], values[order[i]])
  {
    seq(|order|, i requires 0 <= i < |order| => (order[i], values[order[i]]))
  }

  ghost predicate PrefixFree(keys: set<string>) {
    forall a, b :: a in keys && b in keys && a != b ==> !IsPrefix(a, b)
  }

  // Two keys at the front of one string: one is a prefix of the other.
  lemma PrefixesNest(a: string, b: string, s: string)
    requires IsPrefix(a, s) && IsPrefix(b, s) && |a| <= |b|
    ensures IsPrefix(a, b)
  {
    assert b[..|a|] == s[..|a|];
  }

  lemma MatchUnique(values: map<string, string>, s: string, one: seq<string>, two: seq<string>)
    requires PrefixFree(values.Keys) && Lists(one, values.Keys) && Lists(two, values.Keys)
    ensures FirstMatch(Pairs(values, one), s) == FirstMatch(Pairs(values, two), s)
  {
    var p, q := FirstMatch(Pairs(values, one), s), FirstMatch(Pairs(values, two), s);
    if p.Some? {
      var i :| 0 <= i < |one| && Pairs(values, one)[i] == p.value;
      assert one[i] in two;
      var j :| 0 <= j < |two| && two[j] == one[i];
      assert Pairs(values, two)[j] == p.value;
    }
    if q.Some? {
      var i :| 0 <= i < |two| && Pairs(values, two)[i] == q.value;
      assert two[i] in one;
      var j :| 0 <= j < |one| && one[j] == two[i];
      assert Pairs(values, one)[j] == q.value;
    }
    if p.Some? && q.Some? {
      if |p.value.0| <= |q.value.0| { PrefixesNest(p.value.0, q.value.0, s); }
      else { PrefixesNest(q.value.0, p.value.0, s); }
    }
  }

  lemma {:induction false} ReplaceOrderFree(values: map<string, string>, s: string, one: seq<string>, two: seq<string>)
    requires PrefixFree(values.Keys) && Lists(one, values.Keys) && Lists(two, values.Keys)
    ensures Replace(Pairs(values, one), s) == Replace(Pairs(values, two), s)
    decreases |s|
  {
    if s != "" {
      MatchUnique(values, s, one, two);
      match FirstMatch(Pairs(values, one), s)
      case Some(p) => ReplaceOrderFree(values, s[|p.0|..], one, two);
      case None => ReplaceOrderFree(values, s[1..], one, two);
    }
  }

  // One key set, all values, all contents, all orders.
  ghost predicate OrderNeverMatters(keys: set<string>) {
    forall values: map<string, string>, one, two, s :: SameFor(keys, values, one, two, s)
  }

  // The same with values that are not empty: templates have no others, but for the IMEI.
  ghost predicate OrderNeverMattersFull(keys: set<string>) {
    forall values: map<string, string>, one, two, s ::
      (forall k :: k in values ==> values[k] != "") ==> SameFor(keys, values, one, two, s)
  }

  ghost predicate SameFor(keys: set<string>, values: map<string, string>, one: seq<string>, two: seq<string>,
                          s: string) {
    values.Keys == keys && Lists(one, keys) && Lists(two, keys) ==>
      Replace(Pairs(values, one), s) == Replace(Pairs(values, two), s)
  }

  lemma MatchIs(values: map<string, string>, order: seq<string>, s: string, key: string)
    requires PrefixFree(values.Keys) && Lists(order, values.Keys) && "" !in values && key in values && IsPrefix(key, s)
    ensures FirstMatch(Pairs(values, order), s) == Some((key, values[key]))
  {
    var pairs := Pairs(values, order);
    var i :| 0 <= i < |order| && order[i] == key;
    assert pairs[i] == (key, values[key]);
    var p := FirstMatch(pairs, s).value;
    var j :| 0 <= j < |pairs| && pairs[j] == p;
    if |p.0| <= |key| { PrefixesNest(p.0, key, s); } else { PrefixesNest(key, p.0, s); }
  }

  lemma MatchNone(values: map<string, string>, order: seq<string>, s: string)
    requires Lists(order, values.Keys) && forall k :: k in values ==> !IsPrefix(k, s)
    ensures FirstMatch(Pairs(values, order), s).None?
  {
  }

  ghost predicate NoKeyStarts(values: map<string, string>, s: string, n: nat) {
    forall i, k :: 0 <= i < n && i <= |s| && k in values ==> !IsPrefix(k, s[i..])
  }

  lemma NoKeyStartsTail(values: map<string, string>, s: string, n: nat)
    requires s != "" && n >= 1 && NoKeyStarts(values, s, n)
    ensures NoKeyStarts(values, s[1..], n - 1) && forall k :: k in values ==> !IsPrefix(k, s)
  {
    assert s[0..] == s;
    forall i, k | 0 <= i < n - 1 && i <= |s[1..]| && k in values ensures !IsPrefix(k, s[1..][i..]) {
      assert s[1..][i..] == s[i + 1..];
    }
  }

  lemma RendersFirst(values: map<string, string>, order: seq<string>, key: string, after: string)
    requires PrefixFree(values.Keys) && Lists(order, values.Keys) && "" !in values && key in values
    ensures Replace(Pairs(values, order), key + after) == values[key] + Replace(Pairs(values, order), after)
  {
    var s := key + after;
    assert s[..|key|] == key && s[|key|..] == after;
    MatchIs(values, order, s, key);
  }

  lemma KeepsFirst(pairs: seq<Pair>, s: string, c: char, rest: string)
    requires s == [c] + rest && FirstMatch(pairs, s).None?
    ensures Replace(pairs, s) == [c] + Replace(pairs, rest)
  {
    assert s[1..] == rest;
  }

  lemma Regroup(c: char, before: string, rest: string)
    ensures [c] + (before + rest) == ([c] + before) + rest
  {
  }

  // Where a key stands first in a text: what is before it stays, the key becomes its value, and
  // the rest is rendered in the same way.
  lemma {:induction false} RendersKey(values: map<string, string>, order: seq<string>, before: string, key: string,
                                      after: string)
    requires PrefixFree(values.Keys) && Lists(order, values.Keys) && "" !in values && key in values
    requires NoKeyStarts(values, before + (key + after), |before|)
    ensures Replace(Pairs(values, order), before + (key + after)) ==
            before + (values[key] + Replace(Pairs(values, order), after))
    decreases |before|
  {
    RendersFirst(values, order, key, after);
    if before == [] {
      assert before + (key + after) == key + after;
    } else {
      var s, c, front := before + (key + after), before[0], before[1..];
      assert before == [c] + front;
      Regroup(c, front, key + after);
      assert s[1..] == front + (key + after);
      NoKeyStartsTail(values, s, |before|);
      RendersKey(values, order, front, key, after);
      MatchNone(values, order, s);
      KeepsFirst(Pairs(values, order), s, c, front + (key + after));
      Regroup(c, front, values[key] + Replace(Pairs(values, order), after));
    }
  }

  // What n characters may grow to, when none becomes more than `most`.
  function Room(n: nat, most: nat): nat { if n == 0 then 0 else most + Room(n - 1, most) }

  lemma {:induction false} LeftOver(size: nat, key: nat, most: nat)
    requires 1 <= key <= size
    ensures most + Room(size - key, most) <= Room(size, most)
  {
    if key > 1 { LeftOver(size - 1, key - 1, most); }
  }

  lemma RoomForOne(n: nat)
    ensures Room(n, 1) == n
  {
  }

  // Where no key that fits into the text has a longer value than `most`, neither has a character.
  lemma {:induction false} ReplaceFits(pairs: seq<Pair>, s: string, most: nat)
    requires most >= 1 && forall i :: 0 <= i < |pairs| && |pairs[i].0| <= |s| ==> |pairs[i].1| <= most
    ensures |Replace(pairs, s)| <= Room(|s|, most)
    decreases |s|
  {
    if s != "" {
      match FirstMatch(pairs, s)
      case Some(p) =>
        ReplaceFits(pairs, s[|p.0|..], most);
        LeftOver(|s|, |p.0|, most);
      case None =>
        ReplaceFits(pairs, s[1..], most);
        LeftOver(|s|, 1, most);
    }
  }

  lemma ReplaceHead(pairs: seq<Pair>, s: string)
    requires pairs != [] && pairs[0].0 != "" && IsPrefix(pairs[0].0, s)
    ensures Replace(pairs, s) == pairs[0].1 + Replace(pairs, s[|pairs[0].0|..])
  {
  }

  lemma FirstThenSorted(keys: set<string>, k: string)
    requires k in keys
    ensures Lists([k] + SortedKeys(keys - {k}), keys)
  {
    ListsCons(k, SortedKeys(keys - {k}), keys - {k});
    assert {k} + (keys - {k}) == keys;
  }

  lemma OneIsEnough(keys: set<string>, values: map<string, string>, one: seq<string>, two: seq<string>, s: string)
    requires values.Keys == keys && Lists(one, keys) && Lists(two, keys) && forall k :: k in values ==> values[k] != ""
    requires Replace(Pairs(values, one), s) != Replace(Pairs(values, two), s)
    ensures !OrderNeverMattersFull(keys)
  {
    assert !SameFor(keys, values, one, two, s);
  }

  // Values that tell the order apart: one character for every key but the longer one.
  ghost predicate Telling(values: map<string, string>, b: string) {
    forall k :: k in values ==> values[k] == if k == b then b + b else "x"
  }

  lemma TellingFull(values: map<string, string>, b: string)
    requires Telling(values, b) && b != ""
    ensures forall k :: k in values ==> values[k] != ""
  {
    forall k | k in values ensures values[k] != "" {
      if k == b { assert |b + b| > 0; }
    }
  }

  lemma OrderShows(keys: set<string>, a: string, b: string)
    requires "" !in keys && a in keys && b in keys && a != b && IsPrefix(a, b)
    ensures !OrderNeverMattersFull(keys)
  {
    var values := map k | k in keys :: if k == b then b + b else "x";
    assert values.Keys == keys;
    TwoOrders(values, a, b);
  }

  // The two keys first, one way or the other.
  lemma TwoOrders(values: map<string, string>, a: string, b: string)
    requires "" !in values && a in values && b in values && a != b && IsPrefix(a, b) && Telling(values, b)
    ensures !OrderNeverMattersFull(values.Keys)
  {
    var keys := values.Keys;
    var one, two := [a] + SortedKeys(keys - {a}), [b] + SortedKeys(keys - {b});
    FirstThenSorted(keys, a);
    FirstThenSorted(keys, b);
    ShorterFirst(values, one, a, b);
    LongerFirst(values, two, b);
    TellingFull(values, b);
    OneIsEnough(keys, values, one, two, b);
  }

  lemma ShorterFirst(values: map<string, string>, order: seq<string>, a: string, b: string)
    requires Lists(order, values.Keys) && order != [] && order[0] == a && Telling(values, b)
    requires a != "" && a != b && IsPrefix(a, b)
    ensures |Replace(Pairs(values, order), b)| <= |b|
  {
    var p := Pairs(values, order);
    ReplaceHead(p, b);
    ReplaceFits(p, b[|a|..], 1);
    RoomForOne(|b[|a|..]|);
  }

  lemma LongerFirst(values: map<string, string>, order: seq<string>, b: string)
    requires Lists(order, values.Keys) && order != [] && order[0] == b && b != "" && Telling(values, b)
    ensures |Replace(Pairs(values, order), b)| > |b|
  {
    assert b[..|b|] == b;
    ReplaceHead(Pairs(values, order), b);
  }

  // The iteration order never shows exactly when no key is a prefix of another, also if only
  // values are looked at that are not empty.
  lemma OrderMattersIff(keys: set<string>)
    requires "" !in keys
    ensures OrderNeverMatters(keys) <==> PrefixFree(keys)
    ensures OrderNeverMattersFull(keys) <==> PrefixFree(keys)
  {
    if PrefixFree(keys) {
      forall values: map<string, string>, one, two, s ensures SameFor(keys, values, one, two, s) {
        if values.Keys == keys && Lists(one, keys) && Lists(two, keys) { ReplaceOrderFree(values, s, one, two); }
      }
    } else {
      var a, b :| a in keys && b in keys && a != b && IsPrefix(a, b);
      OrderShows(keys, a, b);
    }
  }

  // Content without any of the keys is served unchanged.
  lemma {:induction false} NoKeyNoChange(pairs: seq<Pair>, s: string)
    requires forall i, k :: 0 <= i < |pairs| && 0 <= k <= |s| && pairs[i].0 != "" ==> !IsPrefix(pairs[i].0, s[k..])
    ensures Replace(pairs, s) == s
    decreases |s|
  {
    if s != "" {
      assert s[0..] == s;
      assert FirstMatch(pairs, s).None?;
      forall i, k | 0 <= i < |pairs| && 0 <= k <= |s[1..]| && pairs[i].0 != ""
        ensures !IsPrefix(pairs[i].0, s[1..][k..]) {
        assert s[1..][k..] == s[k + 1..];
      }
      NoKeyNoChange(pairs, s[1..]);
    }
  }

  // --- Template values (21-108) ------------------------------------------------------------

  // What the rendering takes from Go's library: json.Marshal, for numbers and objects, and the
  // case of one rune, which strings.ToUpper and strings.ToLower apply to every rune.
  datatype Library = Library(marshal: Json -> string, up: char -> char, low: char -> char)

  function UpperChar(c: char): char { if 'a' <= c <= 'z' then c - 'a' + 'A' else c }

  function LowerChar(c: char): char { if 'A' <= c <= 'Z' then c - 'A' + 'a' else c }

  // The case of ASCII, and that no other rune becomes a full stop or an underscore.
  ghost predicate Lawful(m: Library) {
    && (forall c: char :: c as int < 128 ==> m.up(c) == UpperChar(c) && m.low(c) == LowerChar(c))
    && (forall c: char :: m.up(c) in {'.', '_'} ==> c == m.up(c))
    && (forall c: char :: m.low(c) in {'.', '_'} ==> c == m.low(c))
  }

  function Upper(m: Library, s: string): string { seq(|s|, i requires 0 <= i < |s| => m.up(s[i])) }

  function Lower(m: Library, s: string): string { seq(|s|, i requires 0 <= i < |s| => m.low(s[i])) }

  predicate NoEmpty(keys: seq<string>) { forall i :: 0 <= i < |keys| ==> keys[i] != "" }

  function Add(keys: seq<string>, key: string): (r: seq<string>)
    ensures NoEmpty(keys) ==> NoEmpty(r)
  {
    if key == "" || key in keys then keys else keys + [key]
  }

  const VENDOR := "com.xmdm."

  // normalizedTemplateKeys (39-70).
  function NormalizedKeys(m: Library, key: string): (r: seq<string>)
    ensures NoEmpty(r)
  {
    var trimmed := Text.TrimSpace(key);
    if trimmed == "" then []
    else
      var keys := Add(Add([], trimmed), Upper(m, trimmed));
      var vendor := IsPrefix(VENDOR, Lower(m, trimmed));
      var stripped := if vendor then Text.TrimSpace(trimmed[|VENDOR|..]) else trimmed;
      var keys := if vendor then Add(Add(keys, stripped), Upper(m, stripped)) else keys;
      if Lower(m, stripped) == "secondarybaseurl" || Lower(m, stripped) == "secondary_base_url"
      then Add(keys, "SECONDARY_BASE_URL") else keys
  }

  function Join(parts: seq<string>): string {
    if parts == [] then "" else if |parts| == 1 then parts[0] else parts[0] + "," + Join(parts[1..])
  }

  // templateValue (72-108).
  function TemplateValue(m: Library, v: Json): string
    decreases v, 1, 0
  {
    match v
    case Null => ""
    case Str(s) => Text.TrimSpace(s)
    case Arr(items) => Join(TemplateParts(m, v, 0))
    case Num(_) => Text.TrimSpace(m.marshal(v))
    case Bool(b) => if b then "true" else "false"
    case Obj(_) => Text.TrimSpace(m.marshal(v))
  }

  function TemplateParts(m: Library, v: Json, i: nat): seq<string>
    requires v.Arr? && i <= |v.items|
    decreases v, 0, |v.items| - i
  {
    if i == |v.items| then []
    else
      var rendered := TemplateValue(m, v.items[i]);
      (if rendered == "" then [] else [rendered]) + TemplateParts(m, v, i + 1)
  }

  // The template keys of one extra: its trimmed name, the name without the vendor prefix (found in
  // any case), both in upper case too, and the base URL's own key under either of its names.
  lemma KeysExact(m: Library, key: string, c: string)
    ensures var t := Text.TrimSpace(key);
            var vendor := |t| >= 9 && Lower(m, t[..9]) == "com.xmdm.";
            var s := if vendor then Text.TrimSpace(t[9..]) else t;
            c in NormalizedKeys(m, key) <==>
            t != "" && c != "" &&
            (c in {t, Upper(m, t), s, Upper(m, s)} ||
             (c == "SECONDARY_BASE_URL" && Lower(m, s) in {"secondarybaseurl", "secondary_base_url"}))
  {
    var t := Text.TrimSpace(key);
    if |t| >= 9 { assert Lower(m, t)[..9] == Lower(m, t[..9]); }
    var stripped := if IsPrefix(VENDOR, Lower(m, t)) then Text.TrimSpace(t[|VENDOR|..]) else t;
    var two := Add(Add([], t), Upper(m, t));
    AddExact([], t, c);
    AddExact(Add([], t), Upper(m, t), c);
    AddExact(two, stripped, c);
    AddExact(Add(two, stripped), Upper(m, stripped), c);
    AddExact(if IsPrefix(VENDOR, Lower(m, t)) then Add(Add(two, stripped), Upper(m, stripped)) else two,
             "SECONDARY_BASE_URL", c);
  }

  lemma AddExact(keys: seq<string>, key: string, c: string)
    ensures c in Add(keys, key) <==> c in keys || (c == key && c != "")
  {
  }

  // The text of an extra: strings trimmed, booleans by name, nothing for null, and what the library
  // prints for numbers and objects.
  lemma ValueIs(m: Library, v: Json)
    ensures v.Null? ==> TemplateValue(m, v) == ""
    ensures v.Str? ==> TemplateValue(m, v) == Text.TrimSpace(v.s)
    ensures v == Bool(true) ==> TemplateValue(m, v) == "true"
    ensures v == Bool(false) ==> TemplateValue(m, v) == "false"
    ensures v.Num? || v.Obj? ==> TemplateValue(m, v) == Text.TrimSpace(m.marshal(v))
    ensures v == Arr([]) ==> TemplateValue(m, v) == ""
  {
  }

  lemma {:induction false} PartsShift(m: Library, x: Json, items: seq<Json>, i: nat)
    requires i <= |items|
    ensures TemplateParts(m, Arr([x] + items), i + 1) == TemplateParts(m, Arr(items), i)
    decreases |items| - i
  {
    if i < |items| {
      PartsShift(m, x, items, i + 1);
      assert ([x] + items)[i + 1] == items[i];
    }
  }

  lemma {:induction false} PartsNotEmpty(m: Library, v: Json, i: nat)
    requires v.Arr? && i <= |v.items|
    ensures NoEmpty(TemplateParts(m, v, i))
    decreases |v.items| - i
  {
    if i < |v.items| { PartsNotEmpty(m, v, i + 1); }
  }

  // An array's elements follow each other after commas, those without a text left out.
  lemma ArrayValue(m: Library, x: Json, items: seq<Json>)
    ensures var first, rest := TemplateValue(m, x), TemplateValue(m, Arr(items));
            TemplateValue(m, Arr([x] + items)) ==
            if first == "" then rest else if rest == "" then first else first + "," + rest
  {
    var v := Arr([x] + items);
    assert v.items[0] == x;
    PartsShift(m, x, items, 0);
    PartsNotEmpty(m, Arr(items), 0);
    var parts := TemplateParts(m, Arr(items), 0);
    JoinFront(TemplateValue(m, x), parts);
    assert TemplateParts(m, v, 1) == parts;
    if TemplateValue(m, x) == "" {
      assert TemplateParts(m, v, 0) == [] + parts == parts;
    } else {
      assert TemplateParts(m, v, 0) == [TemplateValue(m, x)] + parts;
    }
  }

  lemma JoinFront(first: string, parts: seq<string>)
    requires NoEmpty(parts)
    ensures Join([first] + parts) == if parts == [] then first else first + "," + Join(parts)
    ensures Join(parts) == "" <==> parts == []
  {
    assert ([first] + parts)[1..] == parts;
  }

  function Defaults(device: string): map<string, string> {
    map["DEVICE_NUMBER" := device, "DEVICE_ID" := device, "IMEI" := ""]
  }

  function SetAll(values: map<string, string>, keys: seq<string>, value: string): (r: map<string, string>)
    ensures forall c :: c in r <==> c in values || c in keys
    ensures forall c :: c in r ==> r[c] == if c in keys then value else values[c]
  {
    if keys == [] then values
    else
      var n := |keys| - 1;
      assert keys == keys[..n] + [keys[n]];
      SetAll(values, keys[..n], value)[keys[n] := value]
  }

  function AddExtra(m: Library, values: map<string, string>, key: string, value: Json): map<string, string> {
    var rendered := TemplateValue(m, value);
    if rendered == "" then values else SetAll(values, NormalizedKeys(m, key), rendered)
  }

  // TemplateValues with the extras visited in this order.
  function TemplateValues(m: Library, device: string, extras: map<string, Json>, order: seq<string>)
    : map<string, string>
    requires forall i :: 0 <= i < |order| ==> order[i] in extras
  {
    if order == [] then Defaults(device)
    else
      var n := |order| - 1;
      AddExtra(m, TemplateValues(m, device, extras, order[..n]), order[n], extras[order[n]])
  }

  // The extra sets this template key.
  predicate Sets(m: Library, extras: map<string, Json>, k: string, c: string)
    requires k in extras
  {
    TemplateValue(m, extras[k]) != "" && c in NormalizedKeys(m, k)
  }

  // Extras that set one key agree on its value; in particular when no two normalise alike.
  ghost predicate Agree(m: Library, extras: map<string, Json>) {
    forall k, l, c :: k in extras && l in extras && Sets(m, extras, k, c) && Sets(m, extras, l, c) ==>
      TemplateValue(m, extras[k]) == TemplateValue(m, extras[l])
  }

  ghost predicate SetBy(m: Library, extras: map<string, Json>, order: seq<string>, c: string)
    requires forall i :: 0 <= i < |order| ==> order[i] in extras
  {
    exists i :: 0 <= i < |order| && Sets(m, extras, order[i], c)
  }

  // Some visited extra sets c to v.
  ghost predicate ValueFrom(m: Library, extras: map<string, Json>, order: seq<string>, c: string, v: string)
    requires forall i :: 0 <= i < |order| ==> order[i] in extras
  {
    exists i :: 0 <= i < |order| && Sets(m, extras, order[i], c) && v == TemplateValue(m, extras[order[i]])
  }

  lemma SetBySnoc(m: Library, extras: map<string, Json>, front: seq<string>, k: string, c: string, v: string)
    requires (forall i :: 0 <= i < |front| ==> front[i] in extras) && k in extras
    ensures SetBy(m, extras, front + [k], c) <==> SetBy(m, extras, front, c) || Sets(m, extras, k, c)
    ensures ValueFrom(m, extras, front, c, v) ==> ValueFrom(m, extras, front + [k], c, v)
    ensures Sets(m, extras, k, c) ==> ValueFrom(m, extras, front + [k], c, TemplateValue(m, extras[k]))
  {
    var order := front + [k];
    assert order[|front|] == k;
    if i :| 0 <= i < |front| && Sets(m, extras, front[i], c) {
      assert order[i] == front[i];
    }
    if ValueFrom(m, extras, front, c, v) {
      var i :| 0 <= i < |front| && Sets(m, extras, front[i], c) && v == TemplateValue(m, extras[front[i]]);
      assert order[i] == front[i];
    }
  }

  ghost predicate ValueOk(m: Library, device: string, extras: map<string, Json>, order: seq<string>,
                          values: map<string, string>, c: string)
    requires forall i :: 0 <= i < |order| ==> order[i] in extras
  {
    if SetBy(m, extras, order, c) then c in values && ValueFrom(m, extras, order, c, values[c])
    else (c in values <==> c in Defaults(device)) && (c in values ==> values[c] == Defaults(device)[c])
  }

  lemma ValueStep(m: Library, device: string, extras: map<string, Json>, front: seq<string>, k: string,
                  before: map<string, string>, after: map<string, string>, c: string)
    requires (forall i :: 0 <= i < |front| ==> front[i] in extras) && k in extras
    requires ValueOk(m, device, extras, front, before, c)
    requires if Sets(m, extras, k, c) then c in after && after[c] == TemplateValue(m, extras[k])
             else (c in after <==> c in before) && (c in after ==> after[c] == before[c])
    ensures ValueOk(m, device, extras, front + [k], after, c)
  {
    SetBySnoc(m, extras, front, k, c, if c in before then before[c] else "");
  }

  lemma ValueSnoc(m: Library, device: string, extras: map<string, Json>, front: seq<string>, k: string, c: string)
    requires (forall i :: 0 <= i < |front| ==> front[i] in extras) && k in extras
    requires ValueOk(m, device, extras, front, TemplateValues(m, device, extras, front), c)
    ensures ValueOk(m, device, extras, front + [k], TemplateValues(m, device, extras, front + [k]), c)
  {
    var before := TemplateValues(m, device, extras, front);
    assert (front + [k])[..|front|] == front;
    ExtraAt(m, extras, before, k, c);
    ValueStep(m, device, extras, front, k, before, AddExtra(m, before, k, extras[k]), c);
  }

  // The value of one key: that of some visited extra that sets it, else the default.
  lemma {:induction false} ValueAt(m: Library, device: string, extras: map<string, Json>, order: seq<string>, c: string)
    requires forall i :: 0 <= i < |order| ==> order[i] in extras
    ensures ValueOk(m, device, extras, order, TemplateValues(m, device, extras, order), c)
  {
    if order == [] {
      assert !SetBy(m, extras, order, c);
    } else {
      var n := |order| - 1;
      ValueAt(m, device, extras, order[..n], c);
      ValueSnoc(m, device, extras, order[..n], order[n], c);
      assert order[..n] + [order[n]] == order;
    }
  }

  lemma ExtraAt(m: Library, extras: map<string, Json>, values: map<string, string>, k: string, c: string)
    requires k in extras
    ensures var r := AddExtra(m, values, k, extras[k]);
            if Sets(m, extras, k, c) then c in r && r[c] == TemplateValue(m, extras[k])
            else (c in r <==> c in values) && (c in r ==> r[c] == values[c])
  {
  }

  lemma ValuesAgree(m: Library, device: string, extras: map<string, Json>, one: seq<string>, two: seq<string>)
    requires Agree(m, extras) && Lists(one, extras.Keys) && Lists(two, extras.Keys)
    ensures TemplateValues(m, device, extras, one) == TemplateValues(m, device, extras, two)
  {
    var a, b := TemplateValues(m, device, extras, one), TemplateValues(m, device, extras, two);
    forall c ensures (c in a <==> c in b) && (c in a ==> a[c] == b[c]) {
      ValueAt(m, device, extras, one, c);
      ValueAt(m, device, extras, two, c);
      SetterListed(m, extras, one, two, c);
      SetterListed(m, extras, two, one, c);
    }
  }

  lemma SetterListed(m: Library, extras: map<string, Json>, one: seq<string>, two: seq<string>, c: string)
    requires Lists(one, extras.Keys) && Lists(two, extras.Keys)
    ensures SetBy(m, extras, one, c) ==> SetBy(m, extras, two, c)
  {
    if i :| 0 <= i < |one| && Sets(m, extras, one[i], c) {
      assert one[i] in two;
      var j :| 0 <= j < |two| && two[j] == one[i];
      assert Sets(m, extras, two[j], c);
    }
  }

  ghost predicate ValuesOrderFree(m: Library, device: string, extras: map<string, Json>) {
    forall one, two :: Lists(one, extras.Keys) && Lists(two, extras.Keys) ==>
      TemplateValues(m, device, extras, one) == TemplateValues(m, device, extras, two)
  }

  lemma LastWins(m: Library, device: string, extras: map<string, Json>, k: string, c: string)
      returns (order: seq<string>)
    requires k in extras && Sets(m, extras, k, c)
    ensures Lists(order, extras.Keys)
    ensures c in TemplateValues(m, device, extras, order)
    ensures TemplateValues(m, device, extras, order)[c] == TemplateValue(m, extras[k])
  {
    var rest := SortedKeys(extras.Keys - {k});
    order := rest + [k];
    Visit(rest, k, extras.Keys, {k});
    assert extras.Keys - ({k} - {k}) == extras.Keys && order[..|order| - 1] == rest;
    ExtraAt(m, extras, TemplateValues(m, device, extras, rest), k, c);
  }

  // The template values do not depend on the visiting order exactly when extras that set one
  // key agree on it.
  lemma ValuesOrderFreeIff(m: Library, device: string, extras: map<string, Json>)
    ensures ValuesOrderFree(m, device, extras) <==> Agree(m, extras)
  {
    if Agree(m, extras) {
      forall one, two | Lists(one, extras.Keys) && Lists(two, extras.Keys)
        ensures TemplateValues(m, device, extras, one) == TemplateValues(m, device, extras, two)
      {
        ValuesAgree(m, device, extras, one, two);
      }
    } else {
      var k, l, c :| k in extras && l in extras && Sets(m, extras, k, c) && Sets(m, extras, l, c) &&
                     TemplateValue(m, extras[k]) != TemplateValue(m, extras[l]);
      var one := LastWins(m, device, extras, k, c);
      var two := LastWins(m, device, extras, l, c);
    }
  }

  // --- Checksums ---------------------------------------------------------------------------

  // RenderTemplate (8-19): the extras visited in one order, the pairs handed over in another.
  // There are always pairs, because of the defaults.
  function Render(m: Library, content: string, device: string, extras: map<string, Json>, visit: seq<string>,
                  order: seq<string>): string
    requires Lists(visit, extras.Keys)
    requires Lists(order, TemplateValues(m, device, extras, visit).Keys)
  {
    Replace(Pairs(TemplateValues(m, device, extras, visit), order), content)
  }

  datatype ManagedFile = ManagedFile(content: string, storedChecksum: string, replaceVariables: bool)

  // The orders that one call of RenderTemplate happens to use.
  datatype Orders = Orders(visit: seq<string>, order: seq<string>)

  ghost predicate Possible(m: Library, device: string, extras: map<string, Json>, o: Orders) {
    Lists(o.visit, extras.Keys) && Lists(o.order, TemplateValues(m, device, extras, o.visit).Keys)
  }

  // listPolicyManagedFiles (routes.go 427-442).
  ghost function Advertised(m: Library, hash: string -> string, f: ManagedFile, device: string,
                            extras: map<string, Json>, o: Orders): string
    requires Possible(m, device, extras, o)
  {
    if f.replaceVariables then hash(Render(m, f.content, device, extras, o.visit, o.order)) else f.storedChecksum
  }

  // The managed-file download (managedfiles/http/routes.go 82-87).
  ghost function Served(m: Library, f: ManagedFile, device: string, extras: map<string, Json>, o: Orders): string
    requires Possible(m, device, extras, o)
  {
    if f.replaceVariables then Render(m, f.content, device, extras, o.visit, o.order) else f.content
  }

  // The bytes served later have the checksum advertised before, for every file, device and
  // extras, whatever orders the two requests used.
  lemma ChecksumMatches(m: Library, hash: string -> string, f: ManagedFile, device: string, extras: map<string, Json>,
                        one: Orders, two: Orders)
    requires Possible(m, device, extras, one) && Possible(m, device, extras, two)
    requires Agree(m, extras) && PrefixFree(TemplateValues(m, device, extras, one.visit).Keys)
    requires !f.replaceVariables ==> f.storedChecksum == hash(f.content)
    ensures Advertised(m, hash, f, device, extras, one) == hash(Served(m, f, device, extras, two))
  {
    ValuesAgree(m, device, extras, one.visit, two.visit);
    ReplaceOrderFree(TemplateValues(m, device, extras, one.visit), f.content, one.order, two.order);
  }

  // A device without extras is always safe.
  lemma NoExtrasSafe(m: Library, device: string)
    ensures Agree(m, map[]) && PrefixFree(TemplateValues(m, device, map[], []).Keys)
    ensures TemplateValues(m, device, map[], []) == map["DEVICE_NUMBER" := device, "DEVICE_ID" := device, "IMEI" := ""]
  {
    assert TemplateValues(m, device, map[], []) == Defaults(device);
    assert Defaults(device).Keys == {"DEVICE_NUMBER", "DEVICE_ID", "IMEI"};
    assert "DEVICE_NUMBER"[..9] == "DEVICE_NU";
    assert "DEVICE_NUMBER"[..4] == "DEVI" && "DEVICE_ID"[..4] == "DEVI";
  }

  // --- The loops of render.go --------------------------------------------------------------

  method ComputeTemplateValues(m: Library, device: string, extras: map<string, Json>)
    returns (values: map<string, string>, ghost visit: seq<string>)
    ensures Lists(visit, extras.Keys) && values == TemplateValues(m, device, extras, visit)
    ensures Agree(m, extras) ==> values == TemplateValues(m, device, extras, SortedKeys(extras.Keys))
  {
    values := map["DEVICE_NUMBER" := device, "DEVICE_ID" := device, "IMEI" := ""];
    visit := [];
    var left := extras.Keys;
    while left != {}
      invariant left <= extras.Keys && Lists(visit, extras.Keys - left)
      invariant values == TemplateValues(m, device, extras, visit)
      decreases left
    {
      var key :| key in left;
      ghost var seen := visit;
      visit := visit + [key];
      Visit(seen, key, extras.Keys, left);
      assert visit[..|visit| - 1] == seen;
      left := left - {key};
      var rendered := TemplateValue(m, extras[key]);
      if rendered == "" { continue; }
      var candidates := NormalizedKeys(m, key);
      ghost var before := values;
      for i := 0 to |candidates|
        invariant values == SetAll(before, candidates[..i], rendered)
      {
        assert candidates[..i + 1][..i] == candidates[..i];
        values := values[candidates[i] := rendered];
      }
      assert candidates[..|candidates|] == candidates;
    }
    assert extras.Keys - left == extras.Keys;
    if Agree(m, extras) { ValuesAgree(m, device, extras, visit, SortedKeys(extras.Keys)); }
  }

  // Whatever orders were chosen, the output is one of Render's; when the order cannot show, it
  // is the output of the sorted orders.
  method RenderTemplate(m: Library, content: string, device: string, extras: map<string, Json>)
    returns (rendered: string, ghost o: Orders)
    ensures Possible(m, device, extras, o) && rendered == Render(m, content, device, extras, o.visit, o.order)
    ensures Agree(m, extras) && PrefixFree(TemplateValues(m, device, extras, SortedKeys(extras.Keys)).Keys) ==>
      rendered == Render(m, content, device, extras, SortedKeys(extras.Keys),
                         SortedKeys(TemplateValues(m, device, extras, SortedKeys(extras.Keys)).Keys))
  {
    ghost var visit;
    var values: map<string, string>;
    values, visit := ComputeTemplateValues(m, device, extras);
    var pairs: seq<Pair> := [];
    ghost var order: seq<string> := [];
    var left := values.Keys;
    while left != {}
      invariant left <= values.Keys && Lists(order, values.Keys - left)
      invariant pairs == Pairs(values, order)
      decreases left
    {
      var key :| key in left;
      Visit(order, key, values.Keys, left);
      pairs := pairs + [(key, values[key])];
      order := order + [key];
      left := left - {key};
    }
    assert values.Keys - left == values.Keys;
    o := Orders(visit, order);
    rendered := Replace(pairs, content);
    if Agree(m, extras) && PrefixFree(TemplateValues(m, device, extras, SortedKeys(extras.Keys)).Keys) {
      ValuesAgree(m, device, extras, visit, SortedKeys(extras.Keys));
      ReplaceOrderFree(values, content, order, SortedKeys(values.Keys));
    }
  }
}
