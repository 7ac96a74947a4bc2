// The device's bounded journal of command results
// (app/src/main/java/com/xmdm/launcher/commands/DeviceCommandResultStore.kt).
module ResultJournal {
  import opened Wrappers
  import Text

  datatype Result = Result(status: string, message: string, details: Option<map<string, string>>)

  datatype Entry = Entry(id: string, result: Result, at: int)

  predicate Lacks(s: seq<Entry>, id: string) {
    forall i :: 0 <= i < |s| ==> s[i].id != id
  }

  function Without(s: seq<Entry>, id: string): (r: seq<Entry>)
    ensures |r| <= |s|
    ensures Lacks(r, id)
  {
    if s == [] then []
    else
      var n := |s| - 1;
      Without(s[..n], id) + (if s[n].id == id then [] else [s[n]])
  }

  function TakeLast<T>(s: seq<T>, n: nat): seq<T> {
    if |s| <= n then s else s[|s| - n..]
  }

  function LastMatch(s: seq<Entry>, id: string): (r: Option<Result>)
    ensures r.None? <==> Lacks(s, id)
    ensures r.Some? ==> exists i :: 0 <= i < |s| && s[i].id == id && s[i].result == r.value
  {
    if s == [] then None
    else
      var n := |s| - 1;
      if s[n].id == id then Some(s[n].result) else LastMatch(s[..n], id)
  }

  function Lookup(s: seq<Entry>, id: string): Option<Result> {
    if Text.IsBlank(id) then None else LastMatch(s, id)
  }

  // record followed by writeEntries' trimming.
  function Record(s: seq<Entry>, max: nat, e: Entry): seq<Entry> {
    if Text.IsBlank(e.id) then s else TakeLast(Without(s, e.id) + [e], max)
  }

  // The same journal with no bound: the deduplicated history.
  function Remember(s: seq<Entry>, e: Entry): seq<Entry> {
    if Text.IsBlank(e.id) then s else Without(s, e.id) + [e]
  }

  function Bounded(es: seq<Entry>, max: nat): seq<Entry> {
    if es == [] then [] else Record(Bounded(es[..|es| - 1], max), max, es[|es| - 1])
  }

  function History(es: seq<Entry>): seq<Entry> {
    if es == [] then [] else Remember(History(es[..|es| - 1]), es[|es| - 1])
  }

  predicate UniqueIds(s: seq<Entry>) {
    forall i, j :: 0 <= i < j < |s| ==> s[i].id != s[j].id
  }

  // An id is found exactly if it is recorded; a blank one never is.
  lemma LookupFinds(s: seq<Entry>, id: string)
    ensures Lookup(s, id).Some? <==> !Text.IsBlank(id) && exists i :: 0 <= i < |s| && s[i].id == id
  {
  }

  // What was recorded is found again.
  lemma LookupRecorded(s: seq<Entry>, max: nat, e: Entry)
    requires max >= 1 && !Text.IsBlank(e.id)
    ensures Lookup(Record(s, max, e), e.id) == Some(e.result)
  {
    var full := Without(s, e.id) + [e];
    var r := TakeLast(full, max);
    assert r[|r| - 1] == full[|full| - 1] == e;
  }

  lemma LastMatchSnoc(s: seq<Entry>, e: Entry, id: string)
    ensures LastMatch(s + [e], id) == if e.id == id then Some(e.result) else LastMatch(s, id)
  {
    assert (s + [e])[..|s|] == s;
  }

  lemma {:induction false} LookupWithout(s: seq<Entry>, k: string, id: string)
    requires id != k
    ensures LastMatch(Without(s, k), id) == LastMatch(s, id)
  {
    if s != [] {
      var n := |s| - 1;
      LookupWithout(s[..n], k, id);
      assert s == s[..n] + [s[n]];
      LastMatchSnoc(s[..n], s[n], id);
      WithoutAppend(s[..n], s[n], k);
      LastMatchSnoc(Without(s[..n], k), s[n], id);
    }
  }

  lemma {:induction false} LookupTail(s: seq<Entry>, cut: nat, id: string)
    requires cut <= |s|
    ensures LastMatch(s[cut..], id) == LastMatch(s, id) || LastMatch(s[cut..], id).None?
  {
    if cut < |s| {
      var n := |s| - 1;
      LookupTail(s[..n], cut, id);
      assert s[cut..] == s[..n][cut..] + [s[n]];
      assert s == s[..n] + [s[n]];
      LastMatchSnoc(s[..n], s[n], id);
      LastMatchSnoc(s[..n][cut..], s[n], id);
    }
  }

  lemma LookupTrimmed(s: seq<Entry>, max: nat, id: string)
    ensures LastMatch(TakeLast(s, max), id) == LastMatch(s, id) ||
            (|s| > max && LastMatch(TakeLast(s, max), id).None?)
  {
    if |s| > max { LookupTail(s, |s| - max, id); }
  }

  // Another id is found as before, or was pushed out of a full journal.
  lemma LookupOthers(s: seq<Entry>, max: nat, e: Entry, id: string)
    requires id != e.id
    ensures Lookup(Record(s, max, e), id) == Lookup(s, id) || (|s| >= max && Lookup(Record(s, max, e), id).None?)
  {
    if !Text.IsBlank(e.id) {
      var front := Without(s, e.id);
      LookupWithout(s, e.id, id);
      LastMatchSnoc(front, e, id);
      LookupTrimmed(front + [e], max, id);
    }
  }

  // --- The bounded journal is the tail of the unbounded one --------------------------------

  lemma {:induction false} WithoutSplits(a: seq<Entry>, b: seq<Entry>, id: string)
    ensures Without(a + b, id) == Without(a, id) + Without(b, id)
  {
    if b == [] {
      assert a + b == a;
    } else {
      var n := |b| - 1;
      assert (a + b)[..|a + b| - 1] == a + b[..n];
      WithoutSplits(a, b[..n], id);
    }
  }

  lemma {:induction false} WithoutAbsent(s: seq<Entry>, id: string)
    requires Lacks(s, id)
    ensures Without(s, id) == s
  {
    if s != [] {
      WithoutAbsent(s[..|s| - 1], id);
    }
  }

  lemma {:induction false} WithoutMember(s: seq<Entry>, id: string, e: Entry)
    ensures e in Without(s, id) <==> e in s && e.id != id
  {
    if s != [] {
      var n := |s| - 1;
      assert s == s[..n] + [s[n]];
      WithoutMember(s[..n], id, e);
    }
  }

  lemma {:induction false} WithoutUnique(s: seq<Entry>, id: string)
    requires UniqueIds(s)
    ensures UniqueIds(Without(s, id)) && |Without(s, id)| >= |s| - 1
  {
    if s != [] {
      var n := |s| - 1;
      var front := s[..n];
      WithoutUnique(front, id);
      assert Lacks(front, s[n].id);
      if s[n].id == id {
        WithoutAbsent(front, id);
      } else {
        var r := Without(front, id);
        forall k | 0 <= k < |r| ensures r[k].id != s[n].id { WithoutMember(front, id, r[k]); }
      }
    }
  }

  lemma RememberUnique(s: seq<Entry>, e: Entry)
    requires UniqueIds(s)
    ensures UniqueIds(Remember(s, e))
  {
    WithoutUnique(s, e.id);
  }

  lemma {:induction false} HistoryUnique(es: seq<Entry>)
    ensures UniqueIds(History(es))
  {
    if es != [] {
      HistoryUnique(es[..|es| - 1]);
      RememberUnique(History(es[..|es| - 1]), es[|es| - 1]);
    }
  }

  lemma TakeLastOfSum<T>(x: seq<T>, y: seq<T>, n: nat)
    requires |y| >= n
    ensures TakeLast(x + y, n) == TakeLast(y, n)
  {
  }

  lemma TrimThenRecord(full: seq<Entry>, max: nat, e: Entry)
    requires UniqueIds(full)
    ensures Record(TakeLast(full, max), max, e) == TakeLast(Remember(full, e), max)
  {
    if !Text.IsBlank(e.id) && |full| > max {
      var cut := |full| - max;
      var p, q := full[..cut], full[cut..];
      assert UniqueIds(q);
      WithoutUnique(q, e.id);
      WithoutSplits(p, q, e.id);
      assert full == p + q;
      TakeLastOfSum(Without(p, e.id), Without(q, e.id) + [e], max);
      assert Remember(full, e) == Without(p, e.id) + (Without(q, e.id) + [e]);
    }
  }

  // After any sequence of records the journal is the last maxEntries entries of the
  // deduplicated history.
  lemma {:induction false} BoundedIsTail(es: seq<Entry>, max: nat)
    ensures Bounded(es, max) == TakeLast(History(es), max)
  {
    if es != [] {
      BoundedIsTail(es[..|es| - 1], max);
      HistoryUnique(es[..|es| - 1]);
      TrimThenRecord(History(es[..|es| - 1]), max, es[|es| - 1]);
    }
  }

  // --- Forgetting takes maxEntries other ids -----------------------------------------------

  function Ids(s: seq<Entry>): set<string> {
    set e | e in s :: e.id
  }

  lemma IdsAppend(s: seq<Entry>, t: seq<Entry>)
    ensures Ids(s + t) == Ids(s) + Ids(t)
  {
    forall k ensures k in Ids(s + t) <==> k in Ids(s) + Ids(t) {
      if k in Ids(s) { var e :| e in s && e.id == k; assert e in s + t; }
      if k in Ids(t) { var e :| e in t && e.id == k; assert e in s + t; }
    }
  }

  // The entries recorded since `id` was last recorded.
  function Since(s: seq<Entry>, id: string): (r: seq<Entry>)
    ensures |r| <= |s|
    ensures Lacks(r, id)
  {
    if s == [] then []
    else
      var n := |s| - 1;
      if s[n].id == id then [] else Since(s[..n], id) + [s[n]]
  }

  lemma SinceAppend(s: seq<Entry>, e: Entry, id: string)
    ensures Since(s + [e], id) == if e.id == id then [] else Since(s, id) + [e]
  {
    assert (s + [e])[..|s|] == s;
  }

  lemma WithoutAppend(s: seq<Entry>, e: Entry, id: string)
    ensures Without(s + [e], id) == if e.id == id then Without(s, id) else Without(s, id) + [e]
  {
    assert (s + [e])[..|s|] == s;
  }

  lemma {:induction false} SinceWithout(s: seq<Entry>, k: string, id: string)
    requires k != id
    ensures Since(Without(s, k), id) == Without(Since(s, id), k)
  {
    if s != [] {
      var n := |s| - 1;
      var front, e := s[..n], s[n];
      SinceWithout(front, k, id);
      assert s == front + [e];
      WithoutAppend(front, e, k);
      SinceAppend(front, e, id);
      if e.id == k {
        WithoutAppend(Since(front, id), e, k);
      } else {
        SinceAppend(Without(front, k), e, id);
        WithoutAppend(Since(front, id), e, k);
      }
    }
  }

  lemma WithoutIds(s: seq<Entry>, k: string)
    ensures Ids(Without(s, k)) <= Ids(s)
  {
    forall e | e in Without(s, k) ensures e in s { WithoutMember(s, k, e); }
  }

  lemma SinceRemember(s: seq<Entry>, id: string, e: Entry)
    requires id in Ids(s)
    ensures id in Ids(Remember(s, e))
    ensures Ids(Since(Remember(s, e), id)) <= Ids(Since(s, id)) + Recorded([e])
  {
    if !Text.IsBlank(e.id) {
      var rest := Without(s, e.id);
      IdsAppend(rest, [e]);
      SinceAppend(rest, e, id);
      assert e in [e];
      assert e in rest + [e];
      if e.id != id {
        var x :| x in s && x.id == id;
        WithoutMember(s, e.id, x);
        assert x in rest + [e];
        SinceWithout(s, e.id, id);
        IdsAppend(Since(rest, id), [e]);
        WithoutIds(Since(s, id), e.id);
      }
    }
  }

  lemma SplitLast<T>(s: seq<T>)
    requires s != []
    ensures s == s[..|s| - 1] + [s[|s| - 1]]
  {
  }

  lemma IdsSnoc(front: seq<Entry>, e: Entry)
    ensures Ids(front + [e]) == Ids(front) + {e.id}
    ensures Lacks(front, e.id) ==> e.id !in Ids(front)
  {
    IdsAppend(front, [e]);
    assert e in [e] && Ids([e]) == {e.id};
  }

  lemma {:induction false} UniqueCount(s: seq<Entry>)
    requires UniqueIds(s)
    ensures |Ids(s)| == |s|
  {
    if s != [] {
      var n := |s| - 1;
      UniqueCount(s[..n]);
      SplitLast(s);
      IdsSnoc(s[..n], s[n]);
      assert Lacks(s[..n], s[n].id);
    }
  }

  lemma DropSnoc<T>(front: seq<T>, x: T, k: nat)
    requires k <= |front|
    ensures (front + [x])[k..] == front[k..] + [x]
  {
  }

  lemma {:induction false} SinceReaches(s: seq<Entry>, id: string)
    requires id in Ids(s)
    ensures |Since(s, id)| < |s| && s[|s| - |Since(s, id)| - 1].id == id
    ensures Since(s, id) == s[|s| - |Since(s, id)|..]
  {
    var n := |s| - 1;
    if s[n].id != id {
      SplitLast(s);
      IdsSnoc(s[..n], s[n]);
      SinceReaches(s[..n], id);
      var m := |Since(s[..n], id)|;
      DropSnoc(s[..n], s[n], n - m);
      assert s[..n][n - m - 1] == s[n - m - 1];
    }
  }

  // An id that was recorded and is no longer in the journal was pushed out by maxEntries others.
  lemma ForgottenAfterMany(full: seq<Entry>, max: nat, id: string)
    requires UniqueIds(full) && id in Ids(full) && Lacks(TakeLast(full, max), id)
    ensures |Ids(Since(full, id))| >= max
  {
    var r := Since(full, id);
    SinceReaches(full, id);
    UniqueCount(r);
  }

  // The nonblank ids among some records.
  function Recorded(es: seq<Entry>): set<string> {
    set e | e in es && !Text.IsBlank(e.id) :: e.id
  }

  lemma RecordedNext(b: seq<Entry>)
    requires b != []
    ensures var n := |b| - 1; Recorded(b[..n]) + Recorded([b[n]]) <= Recorded(b)
  {
    var n := |b| - 1;
    assert b[n] in b;
    assert forall e :: e in b[..n] ==> e in b;
  }

  lemma HistoryNext(a: seq<Entry>, b: seq<Entry>)
    requires b != []
    ensures var n := |b| - 1; History(a + b) == Remember(History(a + b[..n]), b[n])
  {
    assert (a + b)[..|a + b| - 1] == a + b[..|b| - 1];
  }

  lemma SinceStep(full: seq<Entry>, id: string, e: Entry, before: set<string>, after: set<string>)
    requires id in Ids(full) && Ids(Since(full, id)) <= before && before + Recorded([e]) <= after
    ensures id in Ids(Remember(full, e)) && Ids(Since(Remember(full, e), id)) <= after
  {
    SinceRemember(full, id, e);
  }

  lemma {:induction false} SinceHistory(a: seq<Entry>, b: seq<Entry>, id: string)
    requires a != [] && a[|a| - 1].id == id && !Text.IsBlank(id)
    ensures id in Ids(History(a + b))
    ensures Ids(Since(History(a + b), id)) <= Recorded(b)
    decreases |b|
  {
    if b == [] {
      assert a + b == a;
      assert a[|a| - 1] in History(a);
    } else {
      var n := |b| - 1;
      SinceHistory(a, b[..n], id);
      HistoryNext(a, b);
      RecordedNext(b);
      SinceStep(History(a + b[..n]), id, b[n], Recorded(b[..n]), Recorded(b));
    }
  }

  // If the journal has forgotten an id, at least maxEntries other nonblank ids were recorded
  // after the id was.
  lemma ForgetNeedsMany(a: seq<Entry>, b: seq<Entry>, max: nat, id: string)
    requires a != [] && a[|a| - 1].id == id && !Text.IsBlank(id)
    requires Lookup(Bounded(a + b, max), id).None?
    ensures |Recorded(b) - {id}| >= max
  {
    SinceHistory(a, b, id);
    BoundedIsTail(a + b, max);
    HistoryUnique(a + b);
    var full := History(a + b);
    ForgottenAfterMany(full, max, id);
    var ids := Ids(Since(full, id));
    assert id !in ids;
    assert ids <= Recorded(b) - {id};
    SubsetSize(ids, Recorded(b) - {id});
  }

  lemma {:induction false} SubsetSize<T>(a: set<T>, b: set<T>)
    requires a <= b
    ensures |a| <= |b|
  {
    if a != {} {
      var x :| x in a;
      SubsetSize(a - {x}, b - {x});
    }
  }
}
