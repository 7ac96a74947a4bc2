// The canonical JSON text of a config snapshot (server/internal/enrollment/snapshot.go, 112-210)
// and the device's own copy of the printer (ConfigSnapshotVerifier.kt, 44-91).
module CanonicalJson {
  import opened Wrappers
  import opened Sorting
  import Lexicographic

  // A normalised value: what json.Unmarshal into `any` returns. Numbers are their printed tokens.
  datatype Json = Null | Bool(b: bool) | Str(s: string) | Num(token: string)
                | Arr(items: seq<Json>) | Obj(fields: map<string, Json>)

  // Whose string escapes: Go's encoding/json, or Gson's with HTML safety on.
  datatype Writer = Go | Gson

  // --- Strings (section 7 of RFC 8259) -----------------------------------------------------

  const HEX := "0123456789abcdef"

  function Hex4(n: nat): string
    requires n < 0x10000
  {
    [HEX[n / 16 / 16 / 16], HEX[n / 16 / 16 % 16], HEX[n / 16 % 16], HEX[n % 16]]
  }

  predicate GsonOnly(c: char) { c == '\'' || c == '=' }

  predicate NeedsHex(w: Writer, c: char) {
    c < ' ' || c in {'<', '>', '&', '\U{2028}', '\U{2029}'} || (w.Gson? && GsonOnly(c))
  }

  function ShortEscape(c: char): Option<char> {
    if c == '"' then Some('"')
    else if c == '\\' then Some('\\')
    else if c == '\U{0008}' then Some('b')
    else if c == '\U{000C}' then Some('f')
    else if c == '\n' then Some('n')
    else if c == '\r' then Some('r')
    else if c == '\t' then Some('t')
    else None
  }

  function EscapeChar(w: Writer, c: char): (r: string)
    ensures r != ""
  {
    if ShortEscape(c).Some? then ['\\', ShortEscape(c).value]
    else if NeedsHex(w, c) then "\\u" + Hex4(c as int)
    else [c]
  }

  // The escapes of both writers, character by character: seven have a letter or stand for
  // themselves behind a backslash,
  lemma EscapeShort(w: Writer)
    ensures EscapeChar(w, '"') == "\\\"" && EscapeChar(w, '\\') == "\\\\"
    ensures EscapeChar(w, '\U{0008}') == "\\b" && EscapeChar(w, '\U{000C}') == "\\f"
    ensures EscapeChar(w, '\n') == "\\n" && EscapeChar(w, '\r') == "\\r" && EscapeChar(w, '\t') == "\\t"
  {
  }

  // the other control characters are written in hexadecimal,
  lemma EscapeControl(w: Writer, c: char)
    requires c < ' ' && c !in {'\U{0008}', '\U{000C}', '\n', '\r', '\t'}
    ensures EscapeChar(w, c) ==
            "\\u00" + [if c < '\U{0010}' then '0' else '1', "0123456789abcdef"[c as int % 16]]
  {
    assert Hex4(c as int) == "00" + [if c < '\U{0010}' then '0' else '1', "0123456789abcdef"[c as int % 16]];
  }

  lemma HexTexts()
    ensures Hex4(0x3c) == "003c" && Hex4(0x3e) == "003e" && Hex4(0x26) == "0026"
    ensures Hex4(0x2028) == "2028" && Hex4(0x2029) == "2029" && Hex4(0x27) == "0027" && Hex4(0x3d) == "003d"
  {
  }

  lemma EscapeHex(w: Writer, c: char, digits: string)
    requires NeedsHex(w, c) && ShortEscape(c).None? && Hex4(c as int) == digits
    ensures EscapeChar(w, c) == "\\u" + digits
  {
  }

  // so are five that HTML or JavaScript could trip over, and two more by Gson only,
  lemma EscapeHtml(w: Writer)
    ensures EscapeChar(w, '<') == "\\u" + "003c" && EscapeChar(w, '>') == "\\u" + "003e"
    ensures EscapeChar(w, '&') == "\\u" + "0026"
    ensures EscapeChar(w, '\U{2028}') == "\\u" + "2028" && EscapeChar(w, '\U{2029}') == "\\u" + "2029"
    ensures EscapeChar(Gson, '\'') == "\\u" + "0027" && EscapeChar(Gson, '=') == "\\u" + "003d"
  {
    HexTexts();
    EscapeHex(w, '<', "003c");
    EscapeHex(w, '>', "003e");
    EscapeHex(w, '&', "0026");
    EscapeHex(w, '\U{2028}', "2028");
    EscapeHex(w, '\U{2029}', "2029");
    EscapeHex(Gson, '\'', "0027");
    EscapeHex(Gson, '=', "003d");
  }

  // and every other character is written as it is.
  lemma EscapeNot(w: Writer, c: char)
    requires c >= ' ' && c !in {'"', '\\', '<', '>', '&', '\U{2028}', '\U{2029}'}
    requires w.Gson? ==> c !in {'\'', '='}
    ensures EscapeChar(w, c) == [c]
  {
  }

  function EscapeAll(w: Writer, s: string): string {
    if s == "" then "" else EscapeChar(w, s[0]) + EscapeAll(w, s[1..])
  }

  function Quote(w: Writer, s: string): string { "\"" + EscapeAll(w, s) + "\"" }

  // --- Key order (183-210) -----------------------------------------------------------------

  const FIELD_ORDER := ["version", "runtime", "device", "policy", "apps", "files", "certificates", "signature"]

  function Present(order: seq<string>, keys: set<string>): seq<string> {
    if order == [] then []
    else (if order[0] in keys then [order[0]] else []) + Present(order[1..], keys)
  }

  lemma {:induction false} LeastExists(keys: set<string>)
    requires keys != {}
    ensures exists m :: m in keys && forall k :: k in keys ==> Lexicographic.Leq(m, k)
  {
    var x :| x in keys;
    var rest := keys - {x};
    if rest == {} {
      assert Lexicographic.Leq(x, x) by { Lexicographic.LeqTotal(x, x); }
      assert keys == {x};
    } else {
      LeastExists(rest);
      var m :| m in rest && forall k :: k in rest ==> Lexicographic.Leq(m, k);
      Lexicographic.LeqOrder();
      if Lexicographic.Leq(x, m) {
        assert forall k :: k in keys ==> Lexicographic.Leq(x, k);
      } else {
        assert forall k :: k in keys ==> Lexicographic.Leq(m, k);
      }
    }
  }

  // The keys of a set, each exactly once.
  ghost predicate Lists(s: seq<string>, keys: set<string>) {
    && (forall i, j :: 0 <= i < j < |s| ==> s[i] != s[j])
    && (forall i :: 0 <= i < |s| ==> s[i] in keys)
    && (forall k :: k in keys ==> k in s)
  }

  lemma ListsCons(k: string, s: seq<string>, keys: set<string>)
    requires Lists(s, keys) && k !in keys
    ensures Lists([k] + s, {k} + keys)
  {
    var r := [k] + s;
    forall x | x in {k} + keys ensures x in r {
      if x != k { assert x in s; }
    }
  }

  // One step of a loop that visits the keys of a map, `left` being those still to come.
  lemma Visit(s: seq<string>, k: string, keys: set<string>, left: set<string>)
    requires left <= keys && k in left && Lists(s, keys - left)
    ensures Lists(s + [k], keys - (left - {k}))
  {
    forall x | x in keys - (left - {k}) ensures x in s + [k] {
      if x != k { assert x in keys - left; }
    }
  }

  lemma ListsTail(s: seq<string>, keys: set<string>)
    requires Lists(s, keys) && s != []
    ensures s[0] in keys && Lists(s[1..], keys - {s[0]})
  {
    forall k | k in keys - {s[0]} ensures k in s[1..] {
      var i :| 0 <= i < |s| && s[i] == k;
      assert s[1..][i - 1] == k;
    }
  }

  lemma SetSplit(keys: set<string>, k: string)
    requires k in keys
    ensures multiset(keys) == multiset{k} + multiset(keys - {k}) && |keys| == 1 + |keys - {k}|
  {
    assert keys == {k} + (keys - {k});
  }

  lemma HeadSplit(s: seq<string>)
    requires s != []
    ensures multiset(s) == multiset{s[0]} + multiset(s[1..])
  {
    assert s == [s[0]] + s[1..];
  }

  lemma {:induction false} ListsMultiset(s: seq<string>, keys: set<string>)
    requires Lists(s, keys)
    ensures multiset(s) == multiset(keys) && |s| == |keys|
  {
    if s == [] {
      assert keys == {} by {
        forall k ensures k !in keys { assert k in keys ==> k in s; }
      }
    } else {
      ListsTail(s, keys);
      ListsMultiset(s[1..], keys - {s[0]});
      HeadSplit(s);
      SetSplit(keys, s[0]);
    }
  }

  ghost function SortedKeys(keys: set<string>): (r: seq<string>)
    ensures Lists(r, keys) && Sorted(Lexicographic.Leq, r)
  {
    if keys == {} then []
    else
      LeastExists(keys);
      var m :| m in keys && forall k :: k in keys ==> Lexicographic.Leq(m, k);
      var rest := SortedKeys(keys - {m});
      ListsCons(m, rest, keys - {m});
      assert {m} + (keys - {m}) == keys;
      [m] + rest
  }

  // canonicalObjectKeys: the snapshot's own field order when there is nothing but its fields.
  ghost function CanonicalKeys(keys: set<string>): seq<string> {
    var ordered := Present(FIELD_ORDER, keys);
    if |ordered| > 0 && |ordered| == |keys| then ordered else SortedKeys(keys)
  }

  function Shifted(ks: seq<nat>): (r: seq<nat>)
    ensures |r| == |ks| && forall m :: 0 <= m < |r| ==> r[m] == ks[m] + 1
  {
    seq(|ks|, m requires 0 <= m < |ks| => ks[m] + 1)
  }

  // These are the places of the keys of s in the order.
  ghost predicate Places(order: seq<string>, s: seq<string>, ks: seq<nat>) {
    && |ks| == |s| && (forall m :: 0 <= m < |ks| ==> ks[m] < |order| && s[m] == order[ks[m]])
    && (forall m, n :: 0 <= m < n < |ks| ==> ks[m] < ks[n])
  }

  lemma PlacesBehind(k: string, order: seq<string>, s: seq<string>, ks: seq<nat>)
    requires Places(order, s, ks)
    ensures Places([k] + order, s, Shifted(ks)) && Places([k] + order, [k] + s, [0] + Shifted(ks))
  {
    forall m | 0 <= m < |s| ensures s[m] == ([k] + order)[Shifted(ks)[m]] {
      assert ([k] + order)[ks[m] + 1] == order[ks[m]];
    }
  }

  lemma {:induction false} PresentPlaces(order: seq<string>, keys: set<string>) returns (ks: seq<nat>)
    ensures Places(order, Present(order, keys), ks)
  {
    ks := [];
    if order != [] {
      var later := PresentPlaces(order[1..], keys);
      PlacesBehind(order[0], order[1..], Present(order[1..], keys), later);
      assert [order[0]] + order[1..] == order;
      if order[0] in keys {
        ks := [0] + Shifted(later);
      } else {
        ks := Shifted(later);
        assert Present(order, keys) == Present(order[1..], keys);
      }
    }
  }

  lemma OnlyFields(keys: set<string>)
    requires keys != {} && forall k :: k in keys ==> k in FIELD_ORDER
    ensures CanonicalKeys(keys) == Present(FIELD_ORDER, keys)
  {
    PresentLists(FIELD_ORDER, keys);
    assert (set k | k in FIELD_ORDER && k in keys) == keys;
    ListsMultiset(Present(FIELD_ORDER, keys), keys);
  }

  lemma OtherKeys(keys: set<string>, x: string)
    requires x in keys && x !in FIELD_ORDER
    ensures CanonicalKeys(keys) == SortedKeys(keys)
  {
    var both := set k | k in FIELD_ORDER && k in keys;
    PresentLists(FIELD_ORDER, keys);
    ListsMultiset(Present(FIELD_ORDER, keys), both);
    if |both| == |keys| { FullSubset(both, keys); }
  }

  // An object of snapshot fields only has them in this order,
  lemma FieldsInOrder(keys: set<string>, i: nat, j: nat) returns (a: nat, b: nat)
    requires forall k :: k in keys ==> k in FIELD_ORDER
    requires i < j < |CanonicalKeys(keys)|
    ensures var fields := ["version", "runtime", "device", "policy", "apps", "files", "certificates", "signature"];
            a < b < |fields| && fields[a] == CanonicalKeys(keys)[i] && fields[b] == CanonicalKeys(keys)[j]
  {
    CanonicalKeysExact(keys);
    assert CanonicalKeys(keys)[i] in keys;
    OnlyFields(keys);
    var ks := PresentPlaces(FIELD_ORDER, keys);
    a, b := ks[i], ks[j];
  }

  // and any other object has its keys sorted.
  lemma OthersSorted(keys: set<string>, i: nat, j: nat, x: string)
    requires x in keys && x !in FIELD_ORDER && i < j < |CanonicalKeys(keys)|
    ensures Lexicographic.Leq(CanonicalKeys(keys)[i], CanonicalKeys(keys)[j])
  {
    OtherKeys(keys, x);
  }

  predicate NoRepeats(s: seq<string>) {
    forall i, j :: 0 <= i < j < |s| ==> s[i] != s[j]
  }

  lemma {:induction false} PresentLists(order: seq<string>, keys: set<string>)
    requires NoRepeats(order)
    ensures Lists(Present(order, keys), set k | k in order && k in keys)
  {
    if order != [] {
      assert NoRepeats(order[1..]);
      PresentLists(order[1..], keys);
      var later := set k | k in order[1..] && k in keys;
      assert order == [order[0]] + order[1..];
      assert order[0] !in order[1..];
      if order[0] in keys {
        ListsCons(order[0], Present(order[1..], keys), later);
        assert (set k | k in order && k in keys) == {order[0]} + later;
      } else {
        assert (set k | k in order && k in keys) == later;
      }
    }
  }

  lemma {:induction false} FullSubset(a: set<string>, b: set<string>)
    requires a <= b && |a| == |b|
    ensures a == b
  {
    if a != {} {
      var x :| x in a;
      FullSubset(a - {x}, b - {x});
    }
  }

  // Each key exactly once, in an order fixed by the key set alone.
  lemma CanonicalKeysExact(keys: set<string>)
    ensures Lists(CanonicalKeys(keys), keys)
  {
    PresentLists(FIELD_ORDER, keys);
    var both := set k | k in FIELD_ORDER && k in keys;
    ListsMultiset(Present(FIELD_ORDER, keys), both);
    if |both| == |keys| {
      FullSubset(both, keys);
    }
  }

  // --- The printer (112-181) ---------------------------------------------------------------

  ghost function Print(w: Writer, v: Json): string
    decreases v, 1, 0
  {
    match v
    case Null => "null"
    case Bool(b) => if b then "true" else "false"
    case Str(s) => Quote(w, s)
    case Num(token) => token
    case Arr(items) => "[" + PrintItems(w, v, 0) + "]"
    case Obj(fields) =>
      CanonicalKeysExact(fields.Keys);
      "{" + PrintMembers(w, v, CanonicalKeys(fields.Keys), 0) + "}"
  }

  // The elements from position i on, each but the first after a comma.
  ghost function PrintItems(w: Writer, v: Json, i: nat): string
    requires v.Arr? && i <= |v.items|
    decreases v, 0, |v.items| - i
  {
    if i == |v.items| then ""
    else (if i > 0 then "," else "") + Print(w, v.items[i]) + PrintItems(w, v, i + 1)
  }

  ghost function PrintMember(w: Writer, v: Json, k: string): string
    requires v.Obj? && k in v.fields
    decreases v, 0, 0
  {
    Quote(w, k) + ":" + Print(w, v.fields[k])
  }

  ghost function PrintMembers(w: Writer, v: Json, keys: seq<string>, i: nat): string
    requires v.Obj? && (forall j :: 0 <= j < |keys| ==> keys[j] in v.fields) && i <= |keys|
    decreases v, 0, 1 + |keys| - i
  {
    if i == |keys| then ""
    else (if i > 0 then "," else "") + PrintMember(w, v, keys[i]) + PrintMembers(w, v, keys, i + 1)
  }

  // Numbers are printed as tokens of the shape of section 6 of RFC 8259.
  predicate NumberStart(c: char) { c == '-' || '0' <= c <= '9' }

  predicate NumberChar(c: char) { NumberStart(c) || c in {'+', '.', 'e', 'E'} }

  predicate NumberToken(t: string) {
    t != "" && NumberStart(t[0]) && forall i :: 0 <= i < |t| ==> NumberChar(t[i])
  }

  predicate Normalised(v: Json) {
    match v
    case Num(token) => NumberToken(token)
    case Arr(items) => forall i :: 0 <= i < |items| ==> Normalised(items[i])
    case Obj(fields) => forall k :: k in fields ==> Normalised(fields[k])
    case _ => true
  }
}
