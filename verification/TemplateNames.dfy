// The advertised checksum, end to end: for which names of extras it is that of the bytes served
// later, whatever the values of the extras, the device, the file and the iteration orders
// (server/internal/enrollment/http/routes.go 436-465, server/internal/managedfiles/http/routes.go
// 82-87, server/internal/managedfiles/render.go).
module TemplateNames {
  import opened CanonicalJson
  import opened TemplateRender
  import Text

  const DEFAULT_KEYS: set<string> := {"DEVICE_NUMBER", "DEVICE_ID", "IMEI"}

  ghost function NameKeys(m: Library, names: set<string>): set<string> {
    set k, c | k in names && c in NormalizedKeys(m, k) :: c
  }

  // The template keys of a device whose extras have these names and do not render to nothing.
  ghost function AllKeys(m: Library, names: set<string>): set<string> {
    DEFAULT_KEYS + NameKeys(m, names)
  }

  ghost predicate Unshared(m: Library, names: set<string>) {
    forall k, l, c :: k in names && l in names && c in NormalizedKeys(m, k) && c in NormalizedKeys(m, l) ==> k == l
  }

  // No template key is a prefix of another, and no two extras normalise to the same key.
  ghost predicate SafeNames(m: Library, names: set<string>) {
    PrefixFree(AllKeys(m, names)) && Unshared(m, names)
  }

  ghost predicate Rendered(m: Library, extras: map<string, Json>) {
    forall k :: k in extras ==> TemplateValue(m, extras[k]) != ""
  }

  ghost predicate Injective(hash: string -> string) {
    forall s, t :: hash(s) == hash(t) ==> s == t
  }

  // One file of one device, advertised under some orders and served under others.
  ghost predicate Matches(m: Library, hash: string -> string, names: set<string>, f: ManagedFile, device: string,
                          extras: map<string, Json>, one: Orders, two: Orders)
  {
    extras.Keys == names && Rendered(m, extras) && Possible(m, device, extras, one) &&
    Possible(m, device, extras, two) &&
    (!f.replaceVariables ==> f.storedChecksum == hash(f.content)) ==>
      Advertised(m, hash, f, device, extras, one) == hash(Served(m, f, device, extras, two))
  }

  ghost predicate AlwaysMatches(m: Library, hash: string -> string, device: string, names: set<string>) {
    forall f, extras, one, two :: Matches(m, hash, names, f, device, extras, one, two)
  }

  // --- Values of extras that share no key --------------------------------------------------

  lemma KeysAre(m: Library, device: string, extras: map<string, Json>, visit: seq<string>, c: string)
    requires Lists(visit, extras.Keys)
    ensures c in TemplateValues(m, device, extras, visit) ==> c in AllKeys(m, extras.Keys)
    ensures Rendered(m, extras) && c in AllKeys(m, extras.Keys) ==> c in TemplateValues(m, device, extras, visit)
  {
    ValueAt(m, device, extras, visit, c);
    if Rendered(m, extras) && c in NameKeys(m, extras.Keys) {
      var k :| k in extras.Keys && c in NormalizedKeys(m, k);
      SetByOwner(m, extras, visit, k, c);
    }
  }

  lemma SetByOwner(m: Library, extras: map<string, Json>, visit: seq<string>, k: string, c: string)
    requires Lists(visit, extras.Keys) && k in extras && Sets(m, extras, k, c)
    ensures SetBy(m, extras, visit, c)
  {
    assert k in visit;
    var i :| 0 <= i < |visit| && visit[i] == k;
  }

  lemma KeySet(m: Library, device: string, extras: map<string, Json>, visit: seq<string>)
    requires Lists(visit, extras.Keys) && Rendered(m, extras)
    ensures TemplateValues(m, device, extras, visit).Keys == AllKeys(m, extras.Keys)
  {
    forall c ensures c in TemplateValues(m, device, extras, visit).Keys <==> c in AllKeys(m, extras.Keys) {
      KeysAre(m, device, extras, visit, c);
    }
  }

  // A key has the value of the one extra that sets it.
  lemma OwnValue(m: Library, device: string, extras: map<string, Json>, visit: seq<string>, k: string, c: string)
    requires Lists(visit, extras.Keys) && Unshared(m, extras.Keys) && Rendered(m, extras)
    requires k in extras && c in NormalizedKeys(m, k)
    ensures c in TemplateValues(m, device, extras, visit)
    ensures TemplateValues(m, device, extras, visit)[c] == TemplateValue(m, extras[k])
  {
    ValueAt(m, device, extras, visit, c);
    SetByOwner(m, extras, visit, k, c);
    var v := TemplateValues(m, device, extras, visit)[c];
    var i :| 0 <= i < |visit| && Sets(m, extras, visit[i], c) && v == TemplateValue(m, extras[visit[i]]);
    assert visit[i] in extras.Keys;
  }

  lemma DefaultValue(m: Library, device: string, extras: map<string, Json>, visit: seq<string>, c: string)
    requires Lists(visit, extras.Keys) && c in DEFAULT_KEYS && c !in NameKeys(m, extras.Keys)
    ensures c in TemplateValues(m, device, extras, visit)
    ensures TemplateValues(m, device, extras, visit)[c] == if c == "IMEI" then "" else device
  {
    ValueAt(m, device, extras, visit, c);
    forall i | 0 <= i < |visit| ensures !Sets(m, extras, visit[i], c) {
      assert visit[i] in extras.Keys;
    }
  }

  // --- Safe names --------------------------------------------------------------------------

  // With safe names the checksum matches, also where some extras render to nothing.
  lemma SafeNamesMatch(m: Library, hash: string -> string, f: ManagedFile, device: string, extras: map<string, Json>,
                       one: Orders, two: Orders)
    requires SafeNames(m, extras.Keys)
    requires Possible(m, device, extras, one) && Possible(m, device, extras, two)
    requires !f.replaceVariables ==> f.storedChecksum == hash(f.content)
    ensures Advertised(m, hash, f, device, extras, one) == hash(Served(m, f, device, extras, two))
  {
    var keys := TemplateValues(m, device, extras, one.visit).Keys;
    forall c | c in keys ensures c in AllKeys(m, extras.Keys) { KeysAre(m, device, extras, one.visit, c); }
    assert PrefixFree(keys);
    forall k, l, c | k in extras && l in extras && Sets(m, extras, k, c) && Sets(m, extras, l, c)
      ensures TemplateValue(m, extras[k]) == TemplateValue(m, extras[l])
    {
      assert k in extras.Keys && l in extras.Keys;
    }
    ChecksumMatches(m, hash, f, device, extras, one, two);
  }

  // --- Unsafe names ------------------------------------------------------------------------

  // Two renderings of one content that differ.
  lemma Differ(m: Library, hash: string -> string, content: string, device: string, extras: map<string, Json>,
               one: Orders, two: Orders)
    requires Injective(hash) && Rendered(m, extras)
    requires Possible(m, device, extras, one) && Possible(m, device, extras, two)
    requires Render(m, content, device, extras, one.visit, one.order) !=
             Render(m, content, device, extras, two.visit, two.order)
    ensures !AlwaysMatches(m, hash, device, extras.Keys)
  {
    var f := ManagedFile(content, "", true);
    assert !Matches(m, hash, extras.Keys, f, device, extras, one, two);
  }

  // Handing over the key c first replaces it first.
  ghost function First(m: Library, device: string, extras: map<string, Json>, visit: seq<string>, c: string): Orders
    requires Lists(visit, extras.Keys) && c in TemplateValues(m, device, extras, visit)
  {
    Orders(visit, [c] + SortedKeys(TemplateValues(m, device, extras, visit).Keys - {c}))
  }

  lemma FirstRenders(m: Library, device: string, extras: map<string, Json>, visit: seq<string>, c: string,
                     content: string)
    requires Lists(visit, extras.Keys) && c in TemplateValues(m, device, extras, visit) && c != "" &&
      IsPrefix(c, content)
    ensures var o := First(m, device, extras, visit, c);
            var values := TemplateValues(m, device, extras, visit);
            && Possible(m, device, extras, o) && |o.order| > 0 && o.order[0] == c
            && Render(m, content, device, extras, visit, o.order) ==
               values[c] + Replace(Pairs(values, o.order), content[|c|..])
  {
    var values := TemplateValues(m, device, extras, visit);
    FirstThenSorted(values.Keys, c);
    ReplaceHead(Pairs(values, First(m, device, extras, visit, c).order), content);
  }

  lemma FirstAlone(m: Library, device: string, extras: map<string, Json>, visit: seq<string>, c: string)
    requires Lists(visit, extras.Keys) && c in TemplateValues(m, device, extras, visit) && c != ""
    ensures var o := First(m, device, extras, visit, c);
            && Possible(m, device, extras, o)
            && Render(m, c, device, extras, visit, o.order) == TemplateValues(m, device, extras, visit)[c]
  {
    assert c[..|c|] == c && c[|c|..] == "";
    FirstRenders(m, device, extras, visit, c, c);
  }

  lemma DefaultNotEmpty(d: string)
    requires d in DEFAULT_KEYS
    ensures d != "" && d[0] != 'S' && |d| > 3 && d[3] != '.'
  {
  }

  lemma KeyNotEmpty(m: Library, names: set<string>, c: string)
    requires c in AllKeys(m, names)
    ensures c != ""
  {
    if c in NameKeys(m, names) {
      var k :| k in names && c in NormalizedKeys(m, k);
      var i :| 0 <= i < |NormalizedKeys(m, k)| && NormalizedKeys(m, k)[i] == c;
    }
  }

  lemma TrimPlain(s: string)
    requires s != "" && !Text.IsSpace(s[0]) && !Text.IsSpace(s[|s| - 1])
    ensures Text.TrimSpace(s) == s
  {
  }

  function Zs(n: nat): string { seq(n, _ => 'z') }

  lemma ZsRender(m: Library, n: nat)
    requires n > 0
    ensures TemplateValue(m, Str(Zs(n))) == Zs(n) && Zs(n)[0] == 'z' && |Zs(n)| == n
    ensures TemplateValue(m, Str("y")) == "y"
  {
    TrimPlain(Zs(n));
    TrimPlain("y");
  }

  // Extras that tell one name from the others.
  ghost function Marked(names: set<string>, k: string, n: nat): map<string, Json> {
    map l | l in names :: if l == k then Str(Zs(n)) else Str("y")
  }

  lemma MarkedRenders(m: Library, names: set<string>, k: string, n: nat)
    requires n > 0
    ensures var extras := Marked(names, k, n);
            && extras.Keys == names && Rendered(m, extras)
            && forall l :: l in names ==> TemplateValue(m, extras[l]) == if l == k then Zs(n) else "y"
  {
    ZsRender(m, n);
  }

  // Two extras that set one key: the last one visited wins.
  lemma SharedShows(m: Library, hash: string -> string, device: string, names: set<string>, k: string, l: string,
                    c: string)
    requires Injective(hash) && k in names && l in names && k != l
    requires c in NormalizedKeys(m, k) && c in NormalizedKeys(m, l)
    ensures !AlwaysMatches(m, hash, device, names)
  {
    var extras := Marked(names, k, 1);
    MarkedRenders(m, names, k, 1);
    ZsRender(m, 1);
    KeyNotEmpty(m, names, c);
    var one := LastWins(m, device, extras, k, c);
    var two := LastWins(m, device, extras, l, c);
    FirstAlone(m, device, extras, one, c);
    FirstAlone(m, device, extras, two, c);
    Differ(m, hash, c, device, extras, First(m, device, extras, one, c), First(m, device, extras, two, c));
  }

  // One key a prefix of another: with the longer one as content, what is handed over first decides.
  lemma PrefixShows(m: Library, hash: string -> string, device: string, extras: map<string, Json>, a: string, b: string)
    requires Injective(hash) && Rendered(m, extras)
    requires var visit := SortedKeys(extras.Keys);
             var values := TemplateValues(m, device, extras, visit);
             && a in values && b in values && a != "" && IsPrefix(a, b)
             && values[a] + Replace(Pairs(values, First(m, device, extras, visit, a).order), b[|a|..]) != values[b]
    ensures !AlwaysMatches(m, hash, device, extras.Keys)
  {
    var visit := SortedKeys(extras.Keys);
    FirstRenders(m, device, extras, visit, a, b);
    FirstAlone(m, device, extras, visit, b);
    Differ(m, hash, b, device, extras, First(m, device, extras, visit, a), First(m, device, extras, visit, b));
  }

  // --- The keys of one extra ---------------------------------------------------------------

  const BASE_URL := "SECONDARY_BASE_URL"

  predicate IsVendor(m: Library, k: string) { IsPrefix(VENDOR, Lower(m, Text.TrimSpace(k))) }

  function Stripped(m: Library, k: string): string
    requires IsVendor(m, k)
  {
    Text.TrimSpace(Text.TrimSpace(k)[|VENDOR|..])
  }

  // The name without the vendor prefix.
  function Short(m: Library, k: string): string {
    if IsVendor(m, k) then Stripped(m, k) else Text.TrimSpace(k)
  }

  lemma KeyShape(m: Library, k: string, c: string)
    requires c in NormalizedKeys(m, k)
    ensures var t, s := Text.TrimSpace(k), Short(m, k);
            || c == t || c == Upper(m, t) || c == s || c == Upper(m, s)
            || (c == BASE_URL && (Lower(m, s) == "secondarybaseurl" || Lower(m, s) == "secondary_base_url"))
  {
    var t, s := Text.TrimSpace(k), Short(m, k);
    var two := Add(Add([], t), Upper(m, t));
    AddTwo([], t, Upper(m, t), c);
    AddTwo(two, s, Upper(m, s), c);
    AddTwo(if IsVendor(m, k) then Add(Add(two, s), Upper(m, s)) else two, BASE_URL, BASE_URL, c);
  }

  lemma AddTwo(keys: seq<string>, a: string, b: string, c: string)
    ensures c in Add(keys, a) ==> c in keys || c == a
    ensures c in Add(Add(keys, a), b) ==> c in keys || c == a || c == b
  {
  }

  lemma ShortIsSuffix(m: Library, k: string)
    ensures var t, s := Text.TrimSpace(k), Short(m, k);
            && |s| <= |t| && s == t[|t| - |s|..] && (IsVendor(m, k) ==> |t| - |s| >= |VENDOR|)
  {
    var t := Text.TrimSpace(k);
    Text.TrimIdempotent(k);
    if IsVendor(m, k) {
      var u := t[|VENDOR|..];
      assert u != "" ==> u[|u| - 1] == t[|t| - 1];
      Text.TrimSuffix(u);
    }
  }

  // A vendor name has its full stop in fourth place, in either case.
  lemma VendorDot(m: Library, k: string)
    requires Lawful(m) && IsVendor(m, k)
    ensures var t := Text.TrimSpace(k); |t| >= |VENDOR| && t[3] == '.' && Upper(m, t)[3] == '.'
  {
    var t := Text.TrimSpace(k);
    assert Lower(m, t)[..|VENDOR|][3] == VENDOR[3] == '.';
    assert m.low(t[3]) == '.';
  }

  // Of two keys of one extra, only the full name of a vendor extra or the base URL is longer.
  lemma LongerKey(m: Library, k: string, a: string, b: string)
    requires a in NormalizedKeys(m, k) && b in NormalizedKeys(m, k) && |a| < |b|
    ensures b == BASE_URL || (IsVendor(m, k) && (b == Text.TrimSpace(k) || b == Upper(m, Text.TrimSpace(k))))
  {
    KeyShape(m, k, a);
    KeyShape(m, k, b);
    ShortIsSuffix(m, k);
    var s := Short(m, k);
    assert |Lower(m, s)| == |s| == |Upper(m, s)|;
  }

  lemma PrefixAt(a: string, b: string, i: nat)
    requires i < |a|
    ensures IsPrefix(a, b) ==> a[i] == b[i]
  {
    if IsPrefix(a, b) { assert b[..|a|][i] == b[i]; }
  }

  // No key of an extra lies between a default and another key of that extra.
  lemma NotDefault(m: Library, k: string, d: string, a: string, b: string)
    requires Lawful(m) && a in NormalizedKeys(m, k) && b in NormalizedKeys(m, k) && |a| < |b|
    requires d in DEFAULT_KEYS
    ensures !IsPrefix(d, b)
  {
    LongerKey(m, k, a, b);
    DefaultNotEmpty(d);
    if b == BASE_URL {
      PrefixAt(d, b, 0);
    } else {
      VendorDot(m, k);
      PrefixAt(d, b, 3);
    }
  }

  lemma VendorNotBaseUrl(m: Library, k: string)
    requires Lawful(m) && IsVendor(m, k)
    ensures Text.TrimSpace(k) != BASE_URL && Upper(m, Text.TrimSpace(k)) != BASE_URL
  {
    VendorDot(m, k);
    assert BASE_URL[3] == 'O';
  }

  lemma BaseUrlSize(m: Library, k: string)
    requires Lawful(m) && BASE_URL in NormalizedKeys(m, k)
    ensures var s := Short(m, k); Lower(m, s) == "secondarybaseurl" || |s| == |BASE_URL|
  {
    KeyShape(m, k, BASE_URL);
    var s := Short(m, k);
    assert |Lower(m, s)| == |s| == |Upper(m, s)|;
    if IsVendor(m, k) { VendorNotBaseUrl(m, k); }
  }

  // A shorter key beside the base URL is its spelling without underscores.
  lemma BaseUrlShort(m: Library, k: string, a: string)
    requires Lawful(m) && a in NormalizedKeys(m, k) && BASE_URL in NormalizedKeys(m, k) && |a| < |BASE_URL|
    ensures var s := Short(m, k); Lower(m, s) == "secondarybaseurl" && (a == s || a == Upper(m, s))
  {
    BaseUrlSize(m, k);
    KeyShape(m, k, a);
    ShortIsSuffix(m, k);
    var t, s := Text.TrimSpace(k), Short(m, k);
    assert |Lower(m, s)| == |s| == |Upper(m, s)| && |Upper(m, t)| == |t|;
  }

  lemma NotBaseUrl(m: Library, k: string, a: string)
    requires Lawful(m) && a in NormalizedKeys(m, k) && BASE_URL in NormalizedKeys(m, k) && |a| < |BASE_URL|
    ensures !IsPrefix(a, BASE_URL)
  {
    BaseUrlShort(m, k, a);
    var s := Short(m, k);
    assert Lower(m, s)[9] == 'b' && m.low(s[9]) == 'b';
    assert m.low('_') == '_' && s[9] != '_' && m.up(s[9]) != '_';
    PrefixAt(a, BASE_URL, 9);
    assert BASE_URL[9] == '_';
  }

  // Where one key of an extra continues another, the rest of it holds a full stop.
  lemma DotBehind(m: Library, k: string, a: string, b: string)
    requires Lawful(m) && a in NormalizedKeys(m, k) && b in NormalizedKeys(m, k) && a != b && IsPrefix(a, b)
    ensures '.' in b[|a|..]
  {
    LongerKey(m, k, a, b);
    if b == BASE_URL { NotBaseUrl(m, k, a); }
    else {
      VendorDot(m, k);
      ShorterIsShort(m, k, a, b);
      ShortIsSuffix(m, k);
      DotReaches(m, Text.TrimSpace(k), Short(m, k), a, b, 3);
    }
  }

  // The shorter name ends the longer one, so a full stop in it comes again further on.
  lemma {:induction false} DotReaches(m: Library, t: string, s: string, a: string, b: string, j: nat)
    requires Lawful(m) && |s| <= |t| && s == t[|t| - |s|..] && IsPrefix(a, b) && |a| < |b|
    requires (a == s || a == Upper(m, s)) && (b == t || b == Upper(m, t)) && j < |b| && b[j] == '.'
    ensures '.' in b[|a|..]
    decreases |b| - j
  {
    if j < |a| {
      PrefixAt(a, b, j);
      DotMoves(m, t, s, a, b, j);
      DotReaches(m, t, s, a, b, j + (|b| - |a|));
    } else {
      assert b[|a|..][j - |a|] == '.';
    }
  }

  lemma DotMoves(m: Library, t: string, s: string, a: string, b: string, j: nat)
    requires Lawful(m) && |s| <= |t| && s == t[|t| - |s|..] && j < |a| && a[j] == '.'
    requires (a == s || a == Upper(m, s)) && (b == t || b == Upper(m, t))
    ensures |a| == |s| && |b| == |t| && b[j + (|b| - |a|)] == '.'
  {
    assert s[j] == '.';
    SuffixAt(t, s, j);
    assert m.up('.') == '.';
  }

  lemma SuffixAt(t: string, s: string, j: nat)
    requires |s| <= |t| && s == t[|t| - |s|..] && j < |s|
    ensures s[j] == t[j + |t| - |s|]
  {
  }

  lemma ShorterIsShort(m: Library, k: string, a: string, b: string)
    requires Lawful(m) && a in NormalizedKeys(m, k) && IsVendor(m, k) && IsPrefix(a, b) && |a| < |b|
    requires b == Text.TrimSpace(k) || b == Upper(m, Text.TrimSpace(k))
    ensures a == Short(m, k) || a == Upper(m, Short(m, k))
  {
    KeyShape(m, k, a);
    VendorDot(m, k);
    if |a| > 3 { PrefixAt(a, b, 3); }
    assert BASE_URL[3] == 'O';
  }

  // A full stop is in no key without a value, so something is left of a text that holds one.
  lemma {:induction false} DotStays(pairs: seq<Pair>, s: string)
    requires '.' in s && forall i :: 0 <= i < |pairs| && pairs[i].1 == "" ==> '.' !in pairs[i].0
    ensures Replace(pairs, s) != ""
    decreases |s|
  {
    match FirstMatch(pairs, s)
    case Some(p) =>
      if p.1 == "" {
        assert s == p.0 + s[|p.0|..];
        DotStays(pairs, s[|p.0|..]);
      }
    case None =>
  }

  // --- The theorem -------------------------------------------------------------------------

  lemma YNotZ(w: string, n: nat)
    requires n > 0
    ensures "y" + w != Zs(n)
  {
    assert ("y" + w)[0] == 'y' && Zs(n)[0] == 'z';
  }

  // The size of the longest value that is not the marked one.
  function Most(device: string): (n: nat)
    ensures n >= 1 && n >= |device|
  {
    if device == "" then 1 else |device|
  }

  // What is left of b behind a, rendered with a first, when the extra k is marked.
  ghost function Behind(m: Library, device: string, names: set<string>, k: string, n: nat, a: string, b: string)
    : string
    requires a in TemplateValues(m, device, Marked(names, k, n), SortedKeys(names)) && IsPrefix(a, b)
  {
    var extras, visit := Marked(names, k, n), SortedKeys(names);
    Replace(Pairs(TemplateValues(m, device, extras, visit), First(m, device, extras, visit, a).order), b[|a|..])
  }

  lemma BehindSameExtra(m: Library, device: string, names: set<string>, k: string, n: nat, a: string, b: string)
    requires Lawful(m) && Unshared(m, names) && k in names && n > 0
    requires a in NormalizedKeys(m, k) && b in NormalizedKeys(m, k) && a != b && IsPrefix(a, b)
    requires a in TemplateValues(m, device, Marked(names, k, n), SortedKeys(names))
    ensures Behind(m, device, names, k, n, a, b) != ""
  {
    var extras, visit := Marked(names, k, n), SortedKeys(names);
    MarkedRenders(m, names, k, n);
    KeySet(m, device, extras, visit);
    KeyNotEmpty(m, names, a);
    var o := First(m, device, extras, visit, a);
    FirstRenders(m, device, extras, visit, a, b);
    DotBehind(m, k, a, b);
    EmptyIsDefault(m, names, extras, device, visit, o);
    DotStays(Pairs(TemplateValues(m, device, extras, visit), o.order), b[|a|..]);
  }

  lemma BehindDefault(m: Library, device: string, names: set<string>, k: string, n: nat, d: string, b: string)
    requires Lawful(m) && Unshared(m, names) && k in names && n > 0 && b in NormalizedKeys(m, k)
    requires d in DEFAULT_KEYS && IsPrefix(d, b)
    requires d in TemplateValues(m, device, Marked(names, k, n), SortedKeys(names))
    ensures |Behind(m, device, names, k, n, d, b)| <= Room(|b[|d|..]|, Most(device))
  {
    var extras, visit := Marked(names, k, n), SortedKeys(names);
    MarkedRenders(m, names, k, n);
    var o, rest := First(m, device, extras, visit, d), b[|d|..];
    DefaultNotEmpty(d);
    FirstRenders(m, device, extras, visit, d, b);
    LongKeysDoNotFit(m, device, names, k, n, visit, o, rest, d, b);
    ReplaceFits(Pairs(TemplateValues(m, device, extras, visit), o.order), rest, Most(device));
  }

  // Whose value the shorter key has: that of the same extra, one character, or the default.
  lemma ShorterValue(m: Library, device: string, names: set<string>, k: string, n: nat, visit: seq<string>, a: string)
    requires Unshared(m, names) && k in names && n > 0 && a in AllKeys(m, names) && Lists(visit, names)
    ensures var values := TemplateValues(m, device, Marked(names, k, n), visit);
            && a in values
            && ((a in NormalizedKeys(m, k) && values[a] == Zs(n)) || values[a] == "y" ||
                (a in DEFAULT_KEYS && |values[a]| <= |device|))
  {
    var extras := Marked(names, k, n);
    MarkedRenders(m, names, k, n);
    ZsRender(m, n);
    if l :| l in names && a in NormalizedKeys(m, l) {
      OwnValue(m, device, extras, visit, l, a);
    } else {
      DefaultValue(m, device, extras, visit, a);
    }
  }

  lemma SizesDiffer(u: string, w: string, n: nat)
    requires |u| + |w| != n
    ensures u + w != Zs(n)
  {
    assert |u + w| != |Zs(n)|;
  }

  lemma RoomLeft(device: string, a: string, b: string, value: nat, rest: nat, n: nat)
    requires 0 < |a| <= |b| && value <= |device| && n > Room(|b|, Most(device))
    requires rest <= Room(|b[|a|..]|, Most(device))
    ensures value + rest < n
  {
    LeftOver(|b|, |a|, Most(device));
  }

  // A mark that is long enough is not what the shorter key and the rest behind it give: the same
  // extra's value is the mark and leaves more, another's starts otherwise, a default is too short.
  lemma SameExtraTells(m: Library, device: string, names: set<string>, k: string, n: nat, a: string, b: string)
    requires Lawful(m) && Unshared(m, names) && k in names && n > 0
    requires a in NormalizedKeys(m, k) && b in NormalizedKeys(m, k) && a != b && IsPrefix(a, b)
    requires a in TemplateValues(m, device, Marked(names, k, n), SortedKeys(names))
    ensures Zs(n) + Behind(m, device, names, k, n, a, b) != Zs(n)
  {
    BehindSameExtra(m, device, names, k, n, a, b);
    SizesDiffer(Zs(n), Behind(m, device, names, k, n, a, b), n);
  }

  lemma DefaultTells(m: Library, device: string, names: set<string>, k: string, n: nat, d: string, b: string,
                     value: string)
    requires Lawful(m) && Unshared(m, names) && k in names && n > Room(|b|, Most(device))
    requires b in NormalizedKeys(m, k) && d in DEFAULT_KEYS && IsPrefix(d, b) && |value| <= |device|
    requires d in TemplateValues(m, device, Marked(names, k, n), SortedKeys(names))
    ensures value + Behind(m, device, names, k, n, d, b) != Zs(n)
  {
    DefaultNotEmpty(d);
    BehindDefault(m, device, names, k, n, d, b);
    var rest := Behind(m, device, names, k, n, d, b);
    RoomLeft(device, d, b, |value|, |rest|, n);
    SizesDiffer(value, rest, n);
  }

  lemma MarkTells(m: Library, device: string, names: set<string>, k: string, n: nat, a: string, b: string)
    requires Lawful(m) && Unshared(m, names) && k in names && n > Room(|b|, Most(device))
    requires b in NormalizedKeys(m, k) && a in AllKeys(m, names) && a != b && IsPrefix(a, b)
    ensures var values := TemplateValues(m, device, Marked(names, k, n), SortedKeys(names));
            a in values && values[a] + Behind(m, device, names, k, n, a, b) != Zs(n)
  {
    ShorterValue(m, device, names, k, n, SortedKeys(names), a);
    var value := TemplateValues(m, device, Marked(names, k, n), SortedKeys(names))[a];
    if a in NormalizedKeys(m, k) && value == Zs(n) {
      SameExtraTells(m, device, names, k, n, a, b);
    } else if value == "y" {
      YNotZ(Behind(m, device, names, k, n, a, b), n);
    } else {
      DefaultTells(m, device, names, k, n, a, b, value);
    }
  }

  // The longer key b is set by the extra k, and extras share no keys.
  lemma PrefixOfExtra(m: Library, hash: string -> string, device: string, names: set<string>, k: string, a: string,
                      b: string)
    requires Lawful(m) && Injective(hash) && Unshared(m, names)
    requires k in names && b in NormalizedKeys(m, k) && a in AllKeys(m, names) && a != b && IsPrefix(a, b)
    ensures !AlwaysMatches(m, hash, device, names)
  {
    var n := Room(|b|, Most(device)) + 1;
    var extras, visit := Marked(names, k, n), SortedKeys(names);
    MarkedRenders(m, names, k, n);
    KeyNotEmpty(m, names, a);
    OwnValue(m, device, extras, visit, k, b);
    MarkTells(m, device, names, k, n, a, b);
    PrefixShows(m, hash, device, extras, a, b);
  }

  // Only a default may have an empty value.
  lemma EmptyIsDefault(m: Library, names: set<string>, extras: map<string, Json>, device: string, visit: seq<string>,
                       o: Orders)
    requires extras.Keys == names && Unshared(m, names) && Rendered(m, extras)
    requires Lists(visit, names) && o.visit == visit && Possible(m, device, extras, o)
    ensures var pairs := Pairs(TemplateValues(m, device, extras, visit), o.order);
            forall i :: 0 <= i < |pairs| && pairs[i].1 == "" ==> '.' !in pairs[i].0
  {
    var pairs := Pairs(TemplateValues(m, device, extras, visit), o.order);
    KeySet(m, device, extras, visit);
    forall i | 0 <= i < |pairs| && pairs[i].1 == "" ensures '.' !in pairs[i].0 {
      var c := pairs[i].0;
      assert c in AllKeys(m, names);
      if k :| k in names && c in NormalizedKeys(m, k) {
        OwnValue(m, device, extras, visit, k, c);
      } else {
        NoDot(c);
      }
    }
  }

  lemma NoDot(c: string)
    requires c in DEFAULT_KEYS
    ensures '.' !in c
  {
  }

  lemma PairKnown(values: map<string, string>, order: seq<string>, i: nat)
    requires Lists(order, values.Keys) && i < |Pairs(values, order)|
    ensures var pair := Pairs(values, order)[i]; pair.0 in values && pair.1 == values[pair.0]
  {
    assert order[i] in order;
  }

  // Behind the default d, no key of the extra that sets b fits.
  lemma LongKeysDoNotFit(m: Library, device: string, names: set<string>, k: string, n: nat, visit: seq<string>,
                         o: Orders, rest: string, d: string, b: string)
    requires Lawful(m) && Unshared(m, names) && n > 0 && k in names && b in NormalizedKeys(m, k)
    requires d in DEFAULT_KEYS && IsPrefix(d, b) && |rest| < |b|
    requires Lists(visit, names) && o.visit == visit && Possible(m, device, Marked(names, k, n), o)
    ensures var pairs := Pairs(TemplateValues(m, device, Marked(names, k, n), visit), o.order);
            forall i :: 0 <= i < |pairs| && |pairs[i].0| <= |rest| ==> |pairs[i].1| <= Most(device)
  {
    var extras := Marked(names, k, n);
    var pairs := Pairs(TemplateValues(m, device, extras, visit), o.order);
    MarkedRenders(m, names, k, n);
    KeySet(m, device, extras, visit);
    forall i | 0 <= i < |pairs| && |pairs[i].0| <= |rest| ensures |pairs[i].1| <= Most(device) {
      PairKnown(TemplateValues(m, device, extras, visit), o.order, i);
      ShortKey(m, device, names, k, n, visit, d, b, pairs[i].0);
    }
  }

  lemma ShortKey(m: Library, device: string, names: set<string>, k: string, n: nat, visit: seq<string>, d: string,
                 b: string, c: string)
    requires Lawful(m) && Unshared(m, names) && n > 0 && k in names && b in NormalizedKeys(m, k) && Lists(visit, names)
    requires d in DEFAULT_KEYS && IsPrefix(d, b) && c in AllKeys(m, names) && |c| < |b|
    ensures var values := TemplateValues(m, device, Marked(names, k, n), visit);
            c in values && |values[c]| <= Most(device)
  {
    ShorterValue(m, device, names, k, n, visit, c);
    if c in NormalizedKeys(m, k) { NotDefault(m, k, d, c, b); }
  }

  // The longer key b is a default that no extra sets: values longer than the device tell.
  lemma PrefixOfDefault(m: Library, hash: string -> string, device: string, names: set<string>, a: string, b: string)
    requires Injective(hash) && Unshared(m, names)
    requires b in DEFAULT_KEYS && b !in NameKeys(m, names) && a in AllKeys(m, names) && a != b && IsPrefix(a, b)
    ensures !AlwaysMatches(m, hash, device, names)
  {
    DefaultsPrefixFree(a, b);
    var k :| k in names && a in NormalizedKeys(m, k);
    var n := |device| + 1;
    var extras := map l | l in names :: Str(Zs(n));
    ZsRender(m, n);
    assert extras.Keys == names && Rendered(m, extras);
    var visit := SortedKeys(extras.Keys);
    KeySet(m, device, extras, visit);
    KeyNotEmpty(m, names, a);
    OwnValue(m, device, extras, visit, k, a);
    DefaultValue(m, device, extras, visit, b);
    FirstRenders(m, device, extras, visit, a, b);
    PrefixShows(m, hash, device, extras, a, b);
  }

  lemma DefaultsPrefixFree(a: string, b: string)
    requires b in DEFAULT_KEYS && a != b && IsPrefix(a, b)
    ensures a !in DEFAULT_KEYS
  {
    assert "DEVICE_NUMBER"[..9] == "DEVICE_NU";
    assert "DEVICE_NUMBER"[..4] == "DEVI" && "DEVICE_ID"[..4] == "DEVI";
  }

  // Whatever the device: the checksum in its snapshot is always that of the later download, for
  // every file, value of the extras and iteration order, exactly when its extras' names are safe.
  lemma ChecksumAlwaysMatchesIff(m: Library, hash: string -> string, device: string, names: set<string>)
    requires Lawful(m) && Injective(hash)
    ensures AlwaysMatches(m, hash, device, names) <==> SafeNames(m, names)
  {
    if SafeNames(m, names) {
      forall f, extras, one, two ensures Matches(m, hash, names, f, device, extras, one, two) {
        if extras.Keys == names && Possible(m, device, extras, one) && Possible(m, device, extras, two) &&
           (!f.replaceVariables ==> f.storedChecksum == hash(f.content))
        {
          SafeNamesMatch(m, hash, f, device, extras, one, two);
        }
      }
    } else if Unshared(m, names) {
      var a, b :| a in AllKeys(m, names) && b in AllKeys(m, names) && a != b && IsPrefix(a, b);
      if k :| k in names && b in NormalizedKeys(m, k) {
        PrefixOfExtra(m, hash, device, names, k, a, b);
      } else {
        PrefixOfDefault(m, hash, device, names, a, b);
      }
    } else {
      var k, l, c :| k in names && l in names && c in NormalizedKeys(m, k) && c in NormalizedKeys(m, l) && k != l;
      SharedShows(m, hash, device, names, k, l, c);
    }
  }

  // Extras A and AB with the values x and yy, on the content AB.
  ghost predicate Two(m: Library, extras: map<string, Json>) {
    extras.Keys == {"A", "AB"} && TemplateValue(m, extras["A"]) == "x" && TemplateValue(m, extras["AB"]) == "yy"
  }

  lemma TwoValues(m: Library, device: string, extras: map<string, Json>, visit: seq<string>)
    requires Lawful(m) && Two(m, extras) && Lists(visit, extras.Keys)
    ensures var values := TemplateValues(m, device, extras, visit);
            && "A" in values && values["A"] == "x" && "AB" in values && values["AB"] == "yy"
            && "B" !in values && "" !in values
  {
    LettersOnly(m);
    assert forall k :: k in extras ==> TemplateValue(m, extras[k]) != "";
    OwnValue(m, device, extras, visit, "A", "A");
    OwnValue(m, device, extras, visit, "AB", "AB");
    NoOtherKey(m, extras.Keys, "B");
    KeysAre(m, device, extras, visit, "B");
    NoOtherKey(m, extras.Keys, "");
    KeysAre(m, device, extras, visit, "");
  }

  lemma NoOtherKey(m: Library, names: set<string>, c: string)
    requires names == {"A", "AB"} && NormalizedKeys(m, "A") == ["A"] && NormalizedKeys(m, "AB") == ["AB"]
    requires |c| <= 1 && c != "A"
    ensures c !in AllKeys(m, names)
  {
    assert c !in ["A"] && c !in ["AB"] && c !in DEFAULT_KEYS;
    assert forall k :: k in names ==> c !in NormalizedKeys(m, k);
  }

  lemma TwoRender(m: Library, device: string, extras: map<string, Json>, visit: seq<string>)
    requires Lawful(m) && Two(m, extras) && Lists(visit, extras.Keys)
    requires "A" in TemplateValues(m, device, extras, visit) && "AB" in TemplateValues(m, device, extras, visit)
    ensures var one, two := First(m, device, extras, visit, "A"), First(m, device, extras, visit, "AB");
            && Possible(m, device, extras, one) && Possible(m, device, extras, two)
            && Render(m, "AB", device, extras, visit, one.order) == "xB"
            && Render(m, "AB", device, extras, visit, two.order) == "yy"
  {
    TwoValues(m, device, extras, visit);
    assert "AB"[..1] == "A" && "AB"[1..] == "B" && "x" + "B" == "xB";
    FirstRenders(m, device, extras, visit, "A", "AB");
    FirstAlone(m, device, extras, visit, "AB");
    NoKeyB(TemplateValues(m, device, extras, visit), First(m, device, extras, visit, "A").order);
  }

  // The extras A and AB are enough: the file AB may be advertised as xB and served as yy.
  lemma ChecksumDiffers(m: Library, hash: string -> string, device: string, extras: map<string, Json>)
    returns (one: Orders, two: Orders)
    requires Lawful(m) && Injective(hash) && extras == map["A" := Str("x"), "AB" := Str("yy")]
    ensures var f := ManagedFile("AB", "", true);
            && Possible(m, device, extras, one) && Possible(m, device, extras, two)
            && Advertised(m, hash, f, device, extras, one) == hash("xB") && Served(m, f, device, extras, two) == "yy"
            && Advertised(m, hash, f, device, extras, one) != hash(Served(m, f, device, extras, two))
  {
    var visit := SortedKeys(extras.Keys);
    TrimPlain("x");
    TrimPlain("yy");
    TwoValues(m, device, extras, visit);
    TwoRender(m, device, extras, visit);
    one, two := First(m, device, extras, visit, "A"), First(m, device, extras, visit, "AB");
  }

  lemma LettersOnly(m: Library)
    requires Lawful(m)
    ensures NormalizedKeys(m, "A") == ["A"] && NormalizedKeys(m, "AB") == ["AB"]
    ensures Unshared(m, {"A", "AB"})
  {
    TrimPlain("A");
    TrimPlain("AB");
    assert Upper(m, "A") == "A" && Upper(m, "AB") == "AB";
    assert |Lower(m, "A")| == 1 && |Lower(m, "AB")| == 2;
  }

  lemma NoKeyB(values: map<string, string>, order: seq<string>)
    requires (forall i :: 0 <= i < |order| ==> order[i] in values) && "B" !in values && "" !in values
    ensures Replace(Pairs(values, order), "B") == "B"
  {
    var pairs := Pairs(values, order);
    forall i, k | 0 <= i < |pairs| && 0 <= k <= 1 ensures !IsPrefix(pairs[i].0, "B"[k..]) {
      assert pairs[i].0 == order[i] && "B"[0..] == "B" && "B"[1..] == "" && "B"[..1] == "B";
    }
    NoKeyNoChange(pairs, "B");
  }
}
