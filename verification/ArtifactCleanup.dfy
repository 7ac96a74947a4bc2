// Removing artifacts that nothing references (server/internal/artifactcleanup/cleanup.go over
// server/internal/files/postgres/store.go 144-259): retire the row, delete the object, delete
// the row, and stop at the first failure.
module ArtifactCleanup {
  import opened Wrappers

  datatype Artifact = Artifact(id: string, tenant: string, key: string, checksum: string, size: int, mime: string,
                               active: bool)

  // Rows by id, the storage keys that hold an object, and the artifact ids that some file,
  // certificate or app version references.
  datatype World = World(rows: map<string, Artifact>, objects: set<string>, refs: set<string>)

  // What may go wrong with one candidate; a failed call may have taken effect all the same.
  datatype Fault = Fine | RetireFails(done: bool) | ObjectFails(done: bool) | RowFails(done: bool)

  predicate Orphan(w: World, tenant: string, id: string) {
    id in w.rows && w.rows[id].tenant == tenant && id !in w.refs
  }

  // ListOrphanArtifacts: each orphan once, in some order.
  ghost predicate OrphanList(w: World, tenant: string, list: seq<Artifact>) {
    && (forall i :: 0 <= i < |list| ==> Orphan(w, tenant, list[i].id) && w.rows[list[i].id] == list[i])
    && DistinctIds(list)
    && (forall id :: Orphan(w, tenant, id) ==> exists i :: 0 <= i < |list| && list[i].id == id)
  }

  function Retire(w: World, a: Artifact): World
    requires a.id in w.rows
  {
    w.(rows := w.rows[a.id := w.rows[a.id].(active := false)])
  }

  function DeleteObject(w: World, a: Artifact): World { w.(objects := w.objects - {a.key}) }

  function DeleteRow(w: World, a: Artifact): World { w.(rows := w.rows - {a.id}) }

  // One turn of the loop (44-62): the world after it, and whether the loop goes on.
  function CleanOne(w: World, a: Artifact, f: Fault): (World, bool)
    requires a.id in w.rows
  {
    if a.active && f.RetireFails? then (if f.done then Retire(w, a) else w, false)
    else
      var w1 := if a.active then Retire(w, a) else w;
      if f.ObjectFails? then (if f.done then DeleteObject(w1, a) else w1, false)
      else
        var w2 := DeleteObject(w1, a);
        if f.RowFails? then (if f.done then DeleteRow(w2, a) else w2, false)
        else (DeleteRow(w2, a), true)
  }

  // The world and the number of candidates fully deleted.
  ghost function Sweep(w: World, tenant: string, list: seq<Artifact>, faults: nat -> Fault, from: nat): (World, nat)
    requires from <= |list|
    decreases |list| - from
  {
    if from == |list| || list[from].id !in w.rows then (w, from)
    else
      var (w', on) := CleanOne(w, list[from], faults(from));
      if on then Sweep(w', tenant, list, faults, from + 1) else (w', from)
  }

  // --- What every attempt keeps ------------------------------------------------------------

  function OrphanIds(w: World, tenant: string): set<string> {
    set id | id in w.rows && Orphan(w, tenant, id)
  }

  function OrphanKeys(w: World, tenant: string): set<string> {
    set id | id in w.rows && Orphan(w, tenant, id) :: w.rows[id].key
  }

  // w' is w with some orphans of this tenant partly or wholly removed.
  ghost predicate Progress(w: World, w': World, tenant: string) {
    && w'.refs == w.refs && w'.objects <= w.objects
    && w'.rows.Keys <= w.rows.Keys
    && (forall id :: id in w.rows && !Orphan(w, tenant, id) ==> id in w'.rows && w'.rows[id] == w.rows[id])
    && (forall id :: id in w'.rows ==>
          w'.rows[id] == w.rows[id] || (Orphan(w, tenant, id) && w'.rows[id] == w.rows[id].(active := false)))
    && (forall o :: o in w.objects && o !in w'.objects ==> o in OrphanKeys(w, tenant))
    && (forall id :: Orphan(w, tenant, id) && id !in w'.rows ==> w.rows[id].key !in w'.objects)
  }

  lemma CleanOneProgress(w: World, w': World, tenant: string, a: Artifact, f: Fault)
    requires Progress(w, w', tenant) && a.id in w'.rows && Orphan(w, tenant, a.id) && w.rows[a.id] == a
    ensures Progress(w, CleanOne(w', a, f).0, tenant)
  {
    assert a.key in OrphanKeys(w, tenant);
  }

  lemma ProgressTransitive(a: World, b: World, c: World, tenant: string)
    requires Progress(a, b, tenant) && Progress(b, c, tenant)
    ensures Progress(a, c, tenant)
  {
    forall o | o in a.objects && o !in c.objects ensures o in OrphanKeys(a, tenant) {
      if o in b.objects {
        var id :| id in b.rows && Orphan(b, tenant, id) && b.rows[id].key == o;
        assert Orphan(a, tenant, id) && a.rows[id].key == o;
      }
    }
    forall id | Orphan(a, tenant, id) && id !in c.rows ensures a.rows[id].key !in c.objects {
      if id in b.rows { assert Orphan(b, tenant, id); }
    }
  }

  // The loop has deleted the first `from` candidates and not touched the rows of the others.
  ghost predicate UpTo(w: World, list: seq<Artifact>, from: nat) {
    && from <= |list|
    && (forall i :: 0 <= i < from ==> list[i].id !in w.rows)
    && (forall i :: from <= i < |list| ==> list[i].id in w.rows)
  }

  // Where a sweep ends: `deleted` candidates are gone, the next one perhaps too.
  ghost predicate Ends(w: World, list: seq<Artifact>, deleted: nat) {
    && deleted <= |list|
    && (forall i :: 0 <= i < deleted ==> list[i].id !in w.rows)
    && (forall i :: deleted < i < |list| ==> list[i].id in w.rows)
  }

  lemma CleanOneRows(w: World, list: seq<Artifact>, from: nat, f: Fault)
    requires UpTo(w, list, from) && from < |list| && DistinctIds(list)
    ensures var (w', on) := CleanOne(w, list[from], f);
            && (f.Fine? ==> on) && (on ==> UpTo(w', list, from + 1)) && Ends(w', list, from)
  {
    var keys := CleanOne(w, list[from], f).0.rows.Keys;
    assert keys == w.rows.Keys || keys == w.rows.Keys - {list[from].id};
  }

  predicate DistinctIds(list: seq<Artifact>) {
    forall i, j :: 0 <= i < j < |list| ==> list[i].id != list[j].id
  }

  lemma {:induction false} SweepEnds(w: World, tenant: string, list: seq<Artifact>, faults: nat -> Fault, from: nat)
    requires DistinctIds(list) && UpTo(w, list, from)
    ensures var (end, deleted) := Sweep(w, tenant, list, faults, from);
            && from <= deleted && Ends(end, list, deleted)
            && ((forall i :: from <= i < |list| ==> faults(i).Fine?) ==> deleted == |list|)
    decreases |list| - from
  {
    if from < |list| {
      CleanOneRows(w, list, from, faults(from));
      var (next, on) := CleanOne(w, list[from], faults(from));
      if on {
        SweepEnds(next, tenant, list, faults, from + 1);
      }
    }
  }

  lemma {:induction false} SweepProgress(w: World, w': World, tenant: string, list: seq<Artifact>,
                                         faults: nat -> Fault, from: nat)
    requires OrphanList(w, tenant, list) && from <= |list| && Progress(w, w', tenant)
    ensures Progress(w, Sweep(w', tenant, list, faults, from).0, tenant)
    decreases |list| - from
  {
    if from < |list| && list[from].id in w'.rows {
      CleanOneProgress(w, w', tenant, list[from], faults(from));
      var (next, on) := CleanOne(w', list[from], faults(from));
      if on {
        SweepProgress(w, next, tenant, list, faults, from + 1);
      }
    }
  }

  // --- The theorems ------------------------------------------------------------------------

  ghost function Attempt(w: World, tenant: string, list: seq<Artifact>, faults: nat -> Fault): World {
    Sweep(w, tenant, list, faults, 0).0
  }

  // At every failure point: referenced artifacts keep their rows, nothing of another tenant's
  // rows changes, an object that goes was an orphan's, and no object loses its last row before
  // it goes itself.
  lemma SafeAtEveryFailure(w: World, tenant: string, list: seq<Artifact>, faults: nat -> Fault)
    requires OrphanList(w, tenant, list)
    ensures var w' := Attempt(w, tenant, list, faults);
            && (forall id :: id in w.rows && (id in w.refs || w.rows[id].tenant != tenant) ==>
                id in w'.rows && w'.rows[id] == w.rows[id])
            && (Backed(w) ==> Backed(w'))
            && Progress(w, w', tenant)
  {
    SweepProgress(w, w, tenant, list, faults, 0);
    var w' := Attempt(w, tenant, list, faults);
    if Backed(w) {
      forall o | o in w'.objects ensures exists id :: id in w'.rows && w'.rows[id].key == o {
        var id :| id in w.rows && w.rows[id].key == o;
        assert id in w'.rows && w'.rows[id].key == o;
      }
    }
  }

  // Every object has a row.
  ghost predicate Backed(w: World) {
    forall o :: o in w.objects ==> exists id :: id in w.rows && w.rows[id].key == o
  }

  // UNIQUE (tenant_id, storage_key).
  ghost predicate UniqueKeys(w: World) {
    forall i, j :: i in w.rows && j in w.rows && i != j && w.rows[i].tenant == w.rows[j].tenant ==>
      w.rows[i].key != w.rows[j].key
  }

  // With storage keys unique per tenant, referenced artifacts of the cleaned tenant keep their
  // objects at every failure point.
  lemma ReferencedObjectsKept(w: World, tenant: string, list: seq<Artifact>, faults: nat -> Fault, id: string)
    requires OrphanList(w, tenant, list) && UniqueKeys(w)
    requires id in w.rows && id in w.refs && w.rows[id].tenant == tenant
    ensures var w' := Attempt(w, tenant, list, faults);
            id in w'.rows && (w.rows[id].key in w.objects <==> w'.rows[id].key in w'.objects)
  {
    SafeAtEveryFailure(w, tenant, list, faults);
  }

  // An orphan whose object went and whose row is still there.
  ghost predicate GoneRetired(w: World, w': World, tenant: string) {
    forall id :: id in w'.rows && Orphan(w, tenant, id) ==>
      (w.rows[id].key in w.objects && w.rows[id].key !in w'.objects ==> !w'.rows[id].active)
  }

  lemma CleanOneRetires(w: World, w': World, tenant: string, a: Artifact, f: Fault)
    requires UniqueKeys(w) && Progress(w, w', tenant) && GoneRetired(w, w', tenant)
    requires a.id in w'.rows && Orphan(w, tenant, a.id) && w.rows[a.id] == a
    ensures GoneRetired(w, CleanOne(w', a, f).0, tenant)
  {
    var after := CleanOne(w', a, f).0;
    forall id | id in after.rows && Orphan(w, tenant, id) && w.rows[id].key in w.objects &&
                w.rows[id].key !in after.objects
      ensures !after.rows[id].active
    {
      if id != a.id { assert w.rows[id].key != a.key; }
    }
  }

  lemma {:induction false} SweepRetires(w: World, w': World, tenant: string, list: seq<Artifact>,
                                        faults: nat -> Fault, from: nat)
    requires OrphanList(w, tenant, list) && from <= |list| && UniqueKeys(w)
    requires Progress(w, w', tenant) && GoneRetired(w, w', tenant)
    ensures GoneRetired(w, Sweep(w', tenant, list, faults, from).0, tenant)
    decreases |list| - from
  {
    if from < |list| && list[from].id in w'.rows {
      CleanOneProgress(w, w', tenant, list[from], faults(from));
      CleanOneRetires(w, w', tenant, list[from], faults(from));
      var (next, on) := CleanOne(w', list[from], faults(from));
      if on { SweepRetires(w, next, tenant, list, faults, from + 1); }
    }
  }

  // Wherever a run stops, a row whose object it deleted is retired or gone.
  lemma RetiredFirst(w: World, tenant: string, list: seq<Artifact>, faults: nat -> Fault)
    requires OrphanList(w, tenant, list) && UniqueKeys(w)
    ensures GoneRetired(w, Attempt(w, tenant, list, faults), tenant)
  {
    SweepRetires(w, w, tenant, list, faults, 0);
  }

  ghost function Cleaned(w: World, tenant: string): World {
    World(w.rows - OrphanIds(w, tenant), w.objects - OrphanKeys(w, tenant), w.refs)
  }

  // A run without failures removes exactly the orphans and their objects.
  lemma CompleteRun(w: World, tenant: string, list: seq<Artifact>, faults: nat -> Fault)
    requires OrphanList(w, tenant, list) && forall i: nat :: faults(i).Fine?
    ensures Attempt(w, tenant, list, faults) == Cleaned(w, tenant)
  {
    SweepProgress(w, w, tenant, list, faults, 0);
    SweepEnds(w, tenant, list, faults, 0);
    var w' := Attempt(w, tenant, list, faults);
    forall id ensures id in w'.rows <==> id in w.rows && !Orphan(w, tenant, id) {
      if Orphan(w, tenant, id) {
        var i :| 0 <= i < |list| && list[i].id == id;
        assert list[i].id !in w'.rows;
      }
    }
    assert w'.rows == w.rows - OrphanIds(w, tenant);
    forall o ensures o in w'.objects <==> o in w.objects && o !in OrphanKeys(w, tenant) {
      if o in OrphanKeys(w, tenant) {
        var id :| id in w.rows && Orphan(w, tenant, id) && w.rows[id].key == o;
      }
    }
  }

  // So an artifact of any tenant that is not an orphan keeps its object in a complete run
  // exactly when no orphan of the cleaned tenant has the same storage key.
  lemma SharedKeyLosesObject(w: World, tenant: string, list: seq<Artifact>, faults: nat -> Fault, id: string)
    requires OrphanList(w, tenant, list) && forall i: nat :: faults(i).Fine?
    requires id in w.rows && !Orphan(w, tenant, id) && w.rows[id].key in w.objects
    ensures w.rows[id].key in Attempt(w, tenant, list, faults).objects <==>
            forall j :: Orphan(w, tenant, j) ==> w.rows[j].key != w.rows[id].key
  {
    CompleteRun(w, tenant, list, faults);
  }

  // One run: what its listing returned, and what failed.
  datatype Try = Try(list: seq<Artifact>, faults: nat -> Fault)

  ghost function Attempts(w: World, tenant: string, tries: seq<Try>): World {
    if tries == [] then w
    else
      var n := |tries| - 1;
      Attempt(Attempts(w, tenant, tries[..n]), tenant, tries[n].list, tries[n].faults)
  }

  // Each run lists the orphans that the runs before it have left.
  ghost predicate Listed(w: World, tenant: string, tries: seq<Try>) {
    tries == [] ||
    (var n := |tries| - 1;
     Listed(w, tenant, tries[..n]) && OrphanList(Attempts(w, tenant, tries[..n]), tenant, tries[n].list))
  }

  lemma {:induction false} AttemptsProgress(w: World, tenant: string, tries: seq<Try>)
    requires Listed(w, tenant, tries)
    ensures Progress(w, Attempts(w, tenant, tries), tenant)
  {
    if tries != [] {
      var n := |tries| - 1;
      var before := Attempts(w, tenant, tries[..n]);
      AttemptsProgress(w, tenant, tries[..n]);
      SafeAtEveryFailure(before, tenant, tries[n].list, tries[n].faults);
      ProgressTransitive(w, before, Attempts(w, tenant, tries), tenant);
    }
  }

  lemma SameOrphans(w: World, w': World, tenant: string)
    requires Progress(w, w', tenant)
    ensures forall id :: Orphan(w', tenant, id) <==> Orphan(w, tenant, id) && id in w'.rows
    ensures OrphanKeys(w', tenant) <= OrphanKeys(w, tenant)
  {
    forall o | o in OrphanKeys(w', tenant) ensures o in OrphanKeys(w, tenant) {
      var id :| id in w'.rows && Orphan(w', tenant, id) && w'.rows[id].key == o;
      assert Orphan(w, tenant, id) && w.rows[id].key == o;
    }
  }

  lemma SameCleaned(w: World, w': World, tenant: string)
    requires Progress(w, w', tenant)
    ensures Cleaned(w', tenant) == Cleaned(w, tenant)
  {
    SameOrphans(w, w', tenant);
    assert w'.rows - OrphanIds(w', tenant) == w.rows - OrphanIds(w, tenant);
    forall o | o in OrphanKeys(w, tenant) && o in w'.objects ensures o in OrphanKeys(w', tenant) {
      var id :| id in w.rows && Orphan(w, tenant, id) && w.rows[id].key == o;
      assert Orphan(w', tenant, id) && w'.rows[id].key == o;
    }
    assert w'.objects - OrphanKeys(w', tenant) == w.objects - OrphanKeys(w, tenant);
  }

  // After any number of runs that failed anywhere, a complete run ends where one complete run
  // in their place would have.
  lemma RerunFinishes(w: World, tenant: string, tries: seq<Try>, list: seq<Artifact>, faults: nat -> Fault)
    requires Listed(w, tenant, tries)
    requires OrphanList(Attempts(w, tenant, tries), tenant, list) && forall i: nat :: faults(i).Fine?
    ensures Attempt(Attempts(w, tenant, tries), tenant, list, faults) == Cleaned(w, tenant)
  {
    var w' := Attempts(w, tenant, tries);
    AttemptsProgress(w, tenant, tries);
    CompleteRun(w', tenant, list, faults);
    SameCleaned(w, w', tenant);
  }

  // --- ensureArtifact (144-176) ------------------------------------------------------------

  // The row reused or inserted; a row under the same key must describe the same bytes.
  ghost function EnsureArtifact(w: World, tenant: string, key: string, checksum: string, size: int, mime: string,
                                id: string)
    : (World, Outcome<string>)
  {
    if exists j :: j in w.rows && w.rows[j].tenant == tenant && w.rows[j].key == key then
      var j :| j in w.rows && w.rows[j].tenant == tenant && w.rows[j].key == key;
      if w.rows[j].checksum != checksum || w.rows[j].size != size || w.rows[j].mime != mime then (w, Err(Conflict))
      else (w, Ok(j))
    else if id in w.rows then (w, Err(Conflict))
    else (w.(rows := w.rows[id := Artifact(id, tenant, key, checksum, size, mime, true)]), Ok(id))
  }

  lemma EnsureKeepsUnique(w: World, tenant: string, key: string, checksum: string, size: int, mime: string, id: string)
    requires UniqueKeys(w)
    ensures var (w', r) := EnsureArtifact(w, tenant, key, checksum, size, mime, id);
            && UniqueKeys(w')
            && (forall j :: j in w.rows ==> j in w'.rows && w'.rows[j] == w.rows[j])
            && (r.Ok? ==> r.value in w'.rows && w'.rows[r.value].tenant == tenant && w'.rows[r.value].key == key &&
                          w'.rows[r.value].checksum == checksum && w'.rows[r.value].size == size &&
                          w'.rows[r.value].mime == mime)
  {
  }

  // A key that is known is reused or refused, and one that is not gets a new active row.
  lemma EnsureOutcome(w: World, tenant: string, key: string, checksum: string, size: int, mime: string, id: string)
    requires UniqueKeys(w)
    ensures var (w', r) := EnsureArtifact(w, tenant, key, checksum, size, mime, id);
            && (forall j :: j in w.rows && w.rows[j].tenant == tenant && w.rows[j].key == key ==>
                  w' == w && r == if w.rows[j].checksum == checksum && w.rows[j].size == size && w.rows[j].mime == mime
                                  then Ok(j) else Err(Conflict))
            && ((forall j :: j in w.rows ==> !(w.rows[j].tenant == tenant && w.rows[j].key == key)) ==>
                  if id in w.rows then (w', r) == (w, Err(Conflict))
                  else (w', r) ==
                       (w.(rows := w.rows[id := Artifact(id, tenant, key, checksum, size, mime, true)]), Ok(id)))
  {
  }

  // --- Run (23-65) -------------------------------------------------------------------------

  class Stores {
    var rows: map<string, Artifact>
    var objects: set<string>
    const refs: set<string>

    ghost function State(): World
      reads this
    {
      World(rows, objects, refs)
    }

    constructor (rows: map<string, Artifact>, objects: set<string>, refs: set<string>)
      ensures State() == World(rows, objects, refs)
    {
      this.rows, this.objects, this.refs := rows, objects, refs;
    }

    method ListOrphanArtifacts(tenant: string) returns (list: seq<Artifact>)
      requires forall id :: id in rows ==> rows[id].id == id
      ensures OrphanList(State(), tenant, list)
    {
      list := [];
      var left := rows.Keys;
      while left != {}
        invariant left <= rows.Keys
        invariant forall i :: 0 <= i < |list| ==>
          list[i].id !in left && Orphan(State(), tenant, list[i].id) && rows[list[i].id] == list[i]
        invariant forall i, j :: 0 <= i < j < |list| ==> list[i].id != list[j].id
        invariant forall id :: Orphan(State(), tenant, id) && id !in left ==>
          exists i :: 0 <= i < |list| && list[i].id == id
        decreases left
      {
        var id :| id in left;
        left := left - {id};
        ghost var before := list;
        if rows[id].tenant == tenant && id !in refs {
          list := list + [rows[id]];
          assert list[|list| - 1].id == id;
        }
        forall x | Orphan(State(), tenant, x) && x !in left ensures exists i :: 0 <= i < |list| && list[i].id == x {
          if x != id {
            var i :| 0 <= i < |before| && before[i].id == x;
            assert list[i].id == x;
          }
        }
      }
    }

    // `deleted` is the prefix of the candidates that is gone, `retired` what was active up to
    // where the run got; ok is false when a call failed.
    method Run(tenant: string, apply: bool, faults: nat -> Fault)
      returns (candidates: seq<Artifact>, retired: seq<Artifact>, deleted: seq<Artifact>, ok: bool)
      requires forall id :: id in rows ==> rows[id].id == id
      modifies this
      ensures tenant == "" ==> !ok && candidates == [] && State() == old(State())
      ensures tenant != "" ==> OrphanList(old(State()), tenant, candidates)
      ensures !apply ==> State() == old(State()) && retired == deleted == []
      ensures apply && tenant != "" ==> State() == Attempt(old(State()), tenant, candidates, faults)
      ensures apply && tenant != "" ==> |deleted| == Sweep(old(State()), tenant, candidates, faults, 0).1
      ensures |deleted| <= |candidates| && deleted == AllRetired(candidates[..|deleted|])
      ensures retired == AllRetired(ActiveOf(candidates[..|deleted|])) ||
              (|deleted| < |candidates| && candidates[|deleted|].active &&
               retired == AllRetired(ActiveOf(candidates[..|deleted| + 1])))
      ensures ok <==> tenant != "" && (apply ==> |deleted| == |candidates|)
    {
      candidates, retired, deleted, ok := [], [], [], false;
      if tenant == "" { return; }
      candidates := ListOrphanArtifacts(tenant);
      if !apply { ok := true; return; }
      ghost var w := State();
      for i := 0 to |candidates|
        invariant Sweep(w, tenant, candidates, faults, 0) == Sweep(State(), tenant, candidates, faults, i)
        invariant forall j :: i <= j < |candidates| ==> candidates[j].id in rows
        invariant deleted == AllRetired(candidates[..i]) && retired == AllRetired(ActiveOf(candidates[..i]))
      {
        var current := candidates[i];
        var f := faults(i);
        ghost var before := State();
        RetiredNext(candidates, i);
        if current.active {
          if f.RetireFails? {
            if f.done { rows := rows[current.id := rows[current.id].(active := false)]; }
            return;
          }
          rows := rows[current.id := rows[current.id].(active := false)];
          current := current.(active := false);
          retired := retired + [current];
        }
        if f.ObjectFails? {
          if f.done { objects := objects - {current.key}; }
          return;
        }
        objects := objects - {current.key};
        if f.RowFails? {
          if f.done { rows := rows - {current.id}; }
          return;
        }
        rows := rows - {current.id};
        assert (State(), true) == CleanOne(before, candidates[i], f);
        deleted := deleted + [current];
      }
      ok := true;
    }
  }

  function AllRetired(list: seq<Artifact>): (r: seq<Artifact>)
    ensures |r| == |list| && forall i :: 0 <= i < |r| ==> r[i] == list[i].(active := false)
  {
    seq(|list|, i requires 0 <= i < |list| => list[i].(active := false))
  }

  function ActiveOf(list: seq<Artifact>): seq<Artifact> {
    if list == [] then []
    else
      var n := |list| - 1;
      ActiveOf(list[..n]) + (if list[n].active then [list[n]] else [])
  }

  lemma RetiredNext(list: seq<Artifact>, i: nat)
    requires i < |list|
    ensures AllRetired(list[..i + 1]) == AllRetired(list[..i]) + [list[i].(active := false)]
    ensures AllRetired(ActiveOf(list[..i + 1])) ==
            AllRetired(ActiveOf(list[..i])) + (if list[i].active then [list[i].(active := false)] else [])
  {
    assert list[..i + 1][..i] == list[..i];
  }
}
