// canonicalObjectKeys and appendCanonicalJSON (server/internal/enrollment/snapshot.go 112-199)
// as the loops they are: a builder that is appended to, and maps visited in any order.
module CanonicalWriter {
  import opened Sorting
  import opened CanonicalJson
  import Lexicographic

  class Builder {
    var text: string

    constructor ()
      ensures text == ""
    {
      text := "";
    }

    method WriteString(s: string)
      modifies this
      ensures text == old(text) + s
    {
      text := text + s;
    }
  }

  lemma {:induction false} PresentAppend(a: seq<string>, k: string, keys: set<string>)
    ensures Present(a + [k], keys) == Present(a, keys) + (if k in keys then [k] else [])
  {
    if a != [] {
      assert (a + [k])[1..] == a[1..] + [k];
      PresentAppend(a[1..], k, keys);
    }
  }

  // Whatever order the map is visited in, sorting gives the one sorted list of its keys.
  lemma SortedKeysUnique(visited: seq<string>, keys: set<string>)
    requires Lists(visited, keys)
    ensures Sort(Lexicographic.Leq, visited) == SortedKeys(keys)
  {
    Lexicographic.LeqOrder();
    ListsMultiset(visited, keys);
    ListsMultiset(SortedKeys(keys), keys);
    SortSorted(Lexicographic.Leq, visited);
    SortedUnique(Lexicographic.Leq, Sort(Lexicographic.Leq, visited), SortedKeys(keys));
  }

  method CanonicalObjectKeys(value: map<string, Json>) returns (keys: seq<string>)
    ensures keys == CanonicalKeys(value.Keys)
    ensures Lists(keys, value.Keys)
  {
    CanonicalKeysExact(value.Keys);
    var ordered := [];
    for i := 0 to |FIELD_ORDER|
      invariant ordered == Present(FIELD_ORDER[..i], value.Keys)
    {
      PresentAppend(FIELD_ORDER[..i], FIELD_ORDER[i], value.Keys);
      assert FIELD_ORDER[..i + 1] == FIELD_ORDER[..i] + [FIELD_ORDER[i]];
      if FIELD_ORDER[i] in value { ordered := ordered + [FIELD_ORDER[i]]; }
    }
    assert FIELD_ORDER[..|FIELD_ORDER|] == FIELD_ORDER;
    assert |value| == |value.Keys|;
    if |ordered| > 0 && |ordered| == |value| { return ordered; }
    var visited: seq<string> := [];
    var left := value.Keys;
    while left != {}
      invariant left <= value.Keys && Lists(visited, value.Keys - left)
      decreases left
    {
      var key :| key in left;
      Visit(visited, key, value.Keys, left);
      visited := visited + [key];
      left := left - {key};
    }
    assert value.Keys - left == value.Keys;
    SortedKeysUnique(visited, value.Keys);
    keys := Sort(Lexicographic.Leq, visited);
  }

  // appendCanonicalJSON writes exactly the canonical text.
  method AppendCanonicalJSON(out: Builder, value: Json)
    modifies out
    ensures out.text == old(out.text) + Print(Go, value)
    decreases value, 1
  {
    match value
    case Null => out.WriteString("null");
    case Bool(b) => if b { out.WriteString("true"); } else { out.WriteString("false"); }
    case Str(s) => out.WriteString(Quote(Go, s));
    case Num(token) => out.WriteString(token);
    case Arr(items) =>
      AppendArray(out, value);
    case Obj(fields) =>
      AppendObject(out, value);
  }

  method AppendArray(out: Builder, value: Json)
    requires value.Arr?
    modifies out
    ensures out.text == old(out.text) + Print(Go, value)
    decreases value, 0
  {
    ghost var before := out.text;
    out.WriteString("[");
    for i := 0 to |value.items|
      invariant out.text + PrintItems(Go, value, i) == before + "[" + PrintItems(Go, value, 0)
    {
      ghost var done, left := out.text, PrintItems(Go, value, i + 1);
      if i > 0 { out.WriteString(","); }
      AppendCanonicalJSON(out, value.items[i]);
      ItemsStep(done, if i > 0 then "," else "", Print(Go, value.items[i]), left);
    }
    assert PrintItems(Go, value, |value.items|) == "";
    assert out.text == before + "[" + PrintItems(Go, value, 0);
    out.WriteString("]");
    PrintedArray(before, value);
  }

  lemma ItemsStep(done: string, comma: string, item: string, left: string)
    ensures done + (comma + item + left) == ((done + comma) + item) + left
    ensures comma == "" ==> done + (comma + item + left) == (done + item) + left
  {
    assert comma == "" ==> done + comma == done;
  }

  lemma PrintedArray(before: string, value: Json)
    requires value.Arr?
    ensures (before + "[" + PrintItems(Go, value, 0)) + "]" == before + Print(Go, value)
  {
    assert Print(Go, value) == "[" + PrintItems(Go, value, 0) + "]";
  }

  method AppendObject(out: Builder, value: Json)
    requires value.Obj?
    modifies out
    ensures out.text == old(out.text) + Print(Go, value)
    decreases value, 0
  {
    ghost var before := out.text;
    out.WriteString("{");
    var keys := CanonicalObjectKeys(value.fields);
    for i := 0 to |keys|
      invariant out.text + PrintMembers(Go, value, keys, i) == before + "{" + PrintMembers(Go, value, keys, 0)
    {
      ghost var done, left := out.text, PrintMembers(Go, value, keys, i + 1);
      if i > 0 { out.WriteString(","); }
      ghost var start := out.text;
      out.WriteString(Quote(Go, keys[i]));
      out.WriteString(":");
      AppendCanonicalJSON(out, value.fields[keys[i]]);
      MemberStep(start, Quote(Go, keys[i]), Print(Go, value.fields[keys[i]]));
      assert out.text == start + PrintMember(Go, value, keys[i]);
      ItemsStep(done, if i > 0 then "," else "", PrintMember(Go, value, keys[i]), left);
    }
    assert PrintMembers(Go, value, keys, |keys|) == "";
    assert out.text == before + "{" + PrintMembers(Go, value, keys, 0);
    out.WriteString("}");
    PrintedObject(before, value, keys);
  }

  lemma MemberStep(start: string, key: string, text: string)
    ensures ((start + key) + ":") + text == start + (key + ":" + text)
  {
  }

  lemma PrintedObject(before: string, value: Json, keys: seq<string>)
    requires value.Obj? && keys == CanonicalKeys(value.fields.Keys) && Lists(keys, value.fields.Keys)
    ensures (before + "{" + PrintMembers(Go, value, keys, 0)) + "}" == before + Print(Go, value)
  {
    assert Print(Go, value) == "{" + PrintMembers(Go, value, keys, 0) + "}";
  }

  method CanonicalJSON(value: Json) returns (text: string)
    ensures text == Print(Go, value)
  {
    var out := new Builder();
    AppendCanonicalJSON(out, value);
    text := out.text;
  }
}
