// References that appear while a cleanup run is under way: ensureArtifact reuses the row of an
// artifact that the run has already listed (server/internal/files/postgres/store.go 36-70,
// 144-176, against server/internal/artifactcleanup/cleanup.go 44-62).
module ArtifactRaces {
  import opened ArtifactCleanup

  // `held` are the artifacts that files and certificates reference: their foreign keys refuse
  // the deletion of the row. App versions hold the id as text.
  datatype Racing = Racing(w: World, held: set<string>)

  // New references to existing rows.
  datatype References = References(byFile: set<string>, byVersion: set<string>)

  function Refer(r: Racing, refs: References): Racing {
    Racing(r.w.(refs := r.w.refs + (refs.byFile + refs.byVersion) * r.w.rows.Keys),
           r.held + refs.byFile * r.w.rows.Keys)
  }

  // The turn of one candidate, whatever references it by now: the run does not look again.
  function Turn(r: Racing, a: Artifact, f: Fault): (Racing, bool)
    requires a.id in r.w.rows
  {
    if a.active && f.RetireFails? then (if f.done then r.(w := Retire(r.w, a)) else r, false)
    else
      var w1 := if a.active then Retire(r.w, a) else r.w;
      if f.ObjectFails? then (r.(w := if f.done then DeleteObject(w1, a) else w1), false)
      else
        var w2 := DeleteObject(w1, a);
        if a.id in r.held then (r.(w := w2), false)
        else if f.RowFails? then (r.(w := if f.done then DeleteRow(w2, a) else w2), false)
        else (r.(w := DeleteRow(w2, a)), true)
  }

  // The run from candidate `from` on, with references made before each turn; and how many
  // candidates are fully deleted.
  ghost function Race(r: Racing, list: seq<Artifact>, faults: nat -> Fault, made: nat -> References, from: nat)
    : (Racing, nat)
    requires from <= |list|
    decreases |list| - from
  {
    if from == |list| || list[from].id !in r.w.rows then (Refer(r, made(from)), from)
    else
      var next := Turn(Refer(r, made(from)), list[from], faults(from));
      if next.1 then Race(next.0, list, faults, made, from + 1) else (next.0, from)
  }

  // The object of this candidate is deleted in its turn.
  predicate Reaches(a: Artifact, f: Fault) {
    !(a.active && f.RetireFails?) && !(f.ObjectFails? && !f.done)
  }

  // A turn without a fault that could stop it.
  predicate Clean(a: Artifact, f: Fault) { f.Fine? || (f.RetireFails? && !a.active) }

  // A file or certificate refers to the artifact before turn j: since before the run, or by then.
  ghost predicate HeldBefore(held: set<string>, made: nat -> References, j: nat, id: string) {
    id in held || exists m: nat :: m < j && id in made(m).byFile
  }

  // Turn j succeeds, if the run gets to it.
  ghost predicate GoesOn(list: seq<Artifact>, faults: nat -> Fault, held: set<string>, made: nat -> References, j: nat)
    requires j < |list|
  {
    Clean(list[j], faults(j)) && !HeldBefore(held, made, j + 1, list[j].id)
  }

  ghost predicate GetsTo(list: seq<Artifact>, faults: nat -> Fault, held: set<string>, made: nat -> References, i: nat)
    requires i <= |list|
  {
    forall j :: 0 <= j < i ==> GoesOn(list, faults, held, made, j)
  }

  // The run gets to the artifact and deletes its object.
  ghost predicate ObjectLost(list: seq<Artifact>, faults: nat -> Fault, held: set<string>, made: nat -> References,
                             id: string)
  {
    exists i :: 0 <= i < |list| && list[i].id == id && GetsTo(list, faults, held, made, i) &&
      Reaches(list[i], faults(i))
  }

  // The run gets to the artifact and deletes its row, which no file or certificate holds by then.
  ghost predicate RowLost(list: seq<Artifact>, faults: nat -> Fault, held: set<string>, made: nat -> References,
                          id: string)
  {
    exists i :: 0 <= i < |list| && list[i].id == id && GetsTo(list, faults, held, made, i) &&
      DropsRow(list[i], faults(i)) && !HeldBefore(held, made, i + 1, id)
  }

  predicate DropsRow(a: Artifact, f: Fault) { Clean(a, f) || (f.RowFails? && f.done) }

  // The first n candidates are gone, and nothing else is.
  ghost predicate Behind(w: World, r: Racing, list: seq<Artifact>, n: nat) {
    && n <= |list| && r.held <= r.w.rows.Keys
    && (forall id :: id in r.w.rows <==> id in w.rows && !Among(list, n, id))
    && (forall id :: id in r.w.rows ==> r.w.rows[id].key == w.rows[id].key)
    && (forall o :: o in r.w.objects <==> o in w.objects && !KeyAmong(list, n, o))
  }

  ghost predicate Among(list: seq<Artifact>, n: nat, id: string) {
    exists i :: 0 <= i < n && i < |list| && list[i].id == id
  }

  ghost predicate KeyAmong(list: seq<Artifact>, n: nat, key: string) {
    exists i :: 0 <= i < n && i < |list| && list[i].key == key
  }

  lemma AmongNext(list: seq<Artifact>, n: nat, id: string)
    requires n < |list|
    ensures Among(list, n + 1, id) <==> Among(list, n, id) || list[n].id == id
  {
    if Among(list, n + 1, id) {
      var i :| 0 <= i < n + 1 && i < |list| && list[i].id == id;
      assert i < n || i == n;
    }
  }

  lemma KeyAmongNext(list: seq<Artifact>, n: nat, key: string)
    requires n < |list|
    ensures KeyAmong(list, n + 1, key) <==> KeyAmong(list, n, key) || list[n].key == key
  {
    if KeyAmong(list, n + 1, key) {
      var i :| 0 <= i < n + 1 && i < |list| && list[i].key == key;
      assert i < n || i == n;
    }
  }

  lemma CandidateLeft(w: World, tenant: string, r: Racing, list: seq<Artifact>, n: nat)
    requires OrphanList(w, tenant, list) && Behind(w, r, list, n) && n < |list|
    ensures list[n].id in r.w.rows
  {
    assert forall i :: 0 <= i < n ==> list[i].id != list[n].id;
  }

  lemma TurnGoesOn(w: World, tenant: string, r: Racing, list: seq<Artifact>, n: nat, f: Fault)
    requires OrphanList(w, tenant, list) && Behind(w, r, list, n) && n < |list| && list[n].id in r.w.rows
    requires Turn(r, list[n], f).1
    ensures Behind(w, Turn(r, list[n], f).0, list, n + 1)
  {
    forall id ensures Among(list, n + 1, id) <==> Among(list, n, id) || list[n].id == id { AmongNext(list, n, id); }
    forall o ensures KeyAmong(list, n + 1, o) <==> KeyAmong(list, n, o) || list[n].key == o {
      KeyAmongNext(list, n, o);
    }
  }

  // The references to the candidates still ahead are those made so far.
  ghost predicate HeldSoFar(r: Racing, list: seq<Artifact>, held: set<string>, made: nat -> References, n: nat) {
    forall j :: n <= j < |list| ==> (list[j].id in r.held <==> HeldBefore(held, made, n, list[j].id))
  }

  lemma ReferHolds(w: World, tenant: string, r: Racing, list: seq<Artifact>, held: set<string>,
                   made: nat -> References, n: nat)
    requires OrphanList(w, tenant, list) && Behind(w, r, list, n) && n < |list| && HeldSoFar(r, list, held, made, n)
    ensures forall j :: n <= j < |list| ==>
      (list[j].id in Refer(r, made(n)).held <==> HeldBefore(held, made, n + 1, list[j].id))
  {
    forall j | n <= j < |list|
      ensures list[j].id in Refer(r, made(n)).held <==> HeldBefore(held, made, n + 1, list[j].id)
    {
      assert list[j].id in r.w.rows by { assert forall i :: 0 <= i < n ==> list[i].id != list[j].id; }
      HeldNext(held, made, n, list[j].id);
    }
  }

  lemma HeldNext(held: set<string>, made: nat -> References, n: nat, id: string)
    ensures HeldBefore(held, made, n + 1, id) <==> HeldBefore(held, made, n, id) || id in made(n).byFile
  {
  }

  // What is left when the run stops at candidate n.
  ghost predicate Stopped(w: World, end: Racing, list: seq<Artifact>, faults: nat -> Fault, n: nat) {
    && n <= |list| && end.held <= end.w.rows.Keys
    && (forall id :: id in end.w.rows <==>
          id in w.rows && !Among(list, n, id) &&
          !(n < |list| && id == list[n].id && DropsRow(list[n], faults(n)) && id !in end.held))
    && (forall o :: o in end.w.objects <==>
          o in w.objects && !KeyAmong(list, n, o) && !(n < |list| && o == list[n].key && Reaches(list[n], faults(n))))
  }

  // Where it stops: at the first candidate whose turn does not succeed.
  ghost predicate StopsAt(end: Racing, list: seq<Artifact>, faults: nat -> Fault, held: set<string>,
                          made: nat -> References, from: nat, n: nat)
  {
    && from <= n <= |list|
    && (forall j :: from <= j < n ==> GoesOn(list, faults, held, made, j))
    && (n < |list| ==> !GoesOn(list, faults, held, made, n) &&
                       (list[n].id in end.held <==> HeldBefore(held, made, n + 1, list[n].id)))
  }

  // What a turn takes away that does not succeed.
  lemma TurnTakes(r: Racing, a: Artifact, f: Fault)
    requires a.id in r.w.rows && !Turn(r, a, f).1
    ensures var end := Turn(r, a, f).0;
            && end.held == r.held
            && end.w.rows.Keys == r.w.rows.Keys - (if DropsRow(a, f) && a.id !in r.held then {a.id} else {})
            && end.w.objects == r.w.objects - (if Reaches(a, f) then {a.key} else {})
  {
  }

  lemma TurnStops(w: World, tenant: string, r: Racing, list: seq<Artifact>, faults: nat -> Fault, n: nat)
    requires OrphanList(w, tenant, list) && Behind(w, r, list, n) && n < |list| && list[n].id in r.w.rows
    requires !Turn(r, list[n], faults(n)).1
    ensures Stopped(w, Turn(r, list[n], faults(n)).0, list, faults, n)
  {
    var end := Turn(r, list[n], faults(n)).0;
    TurnTakes(r, list[n], faults(n));
    forall id
      ensures id in end.w.rows <==>
        id in w.rows && !Among(list, n, id) && !(id == list[n].id && DropsRow(list[n], faults(n)) && id !in end.held)
    {
      assert id in end.w.rows <==> id in end.w.rows.Keys;
    }
  }

  lemma TurnSucceeds(r: Racing, a: Artifact, f: Fault)
    requires a.id in r.w.rows
    ensures Turn(r, a, f).1 <==> Clean(a, f) && a.id !in r.held
    ensures Turn(r, a, f).0.held == r.held
  {
  }

  lemma {:induction false} RaceStops(w: World, tenant: string, r: Racing, list: seq<Artifact>, faults: nat -> Fault,
                                     held: set<string>, made: nat -> References, from: nat)
    requires OrphanList(w, tenant, list) && Behind(w, r, list, from) && HeldSoFar(r, list, held, made, from)
    ensures var race := Race(r, list, faults, made, from);
            Stopped(w, race.0, list, faults, race.1) && StopsAt(race.0, list, faults, held, made, from, race.1)
    decreases |list| - from
  {
    if from < |list| {
      CandidateLeft(w, tenant, r, list, from);
      ReferHolds(w, tenant, r, list, held, made, from);
      var s := Refer(r, made(from));
      TurnSucceeds(s, list[from], faults(from));
      var next := Turn(s, list[from], faults(from));
      if next.1 {
        TurnGoesOn(w, tenant, s, list, from, faults(from));
        RaceStops(w, tenant, next.0, list, faults, held, made, from + 1);
      } else {
        TurnStops(w, tenant, s, list, faults, from);
      }
    }
  }

  // A file or certificate never loses the row of its artifact, whenever it was created.
  lemma HeldRowsStay(w: World, held: set<string>, tenant: string, list: seq<Artifact>, faults: nat -> Fault,
                     made: nat -> References, id: string)
    requires OrphanList(w, tenant, list) && held <= w.rows.Keys
    ensures var end := Race(Racing(w, held), list, faults, made, 0).0;
            id in end.held ==> id in end.w.rows
  {
    RaceStops(w, tenant, Racing(w, held), list, faults, held, made, 0);
  }

  // Whether an artifact that was there when the run listed keeps row and object, told from the
  // listing, the faults and the references alone.
  lemma ReuseSafeIff(w: World, held: set<string>, tenant: string, list: seq<Artifact>, faults: nat -> Fault,
                     made: nat -> References, id: string)
    requires OrphanList(w, tenant, list) && held <= w.rows.Keys && UniqueKeys(w)
    requires id in w.rows && w.rows[id].id == id && w.rows[id].tenant == tenant && w.rows[id].key in w.objects
    ensures var end := Race(Racing(w, held), list, faults, made, 0).0.w;
            && (id in end.rows <==> !RowLost(list, faults, held, made, id))
            && (w.rows[id].key in end.objects <==> !ObjectLost(list, faults, held, made, id))
    ensures RowLost(list, faults, held, made, id) ==> ObjectLost(list, faults, held, made, id)
  {
    RaceStops(w, tenant, Racing(w, held), list, faults, held, made, 0);
    var (end, n) := Race(Racing(w, held), list, faults, made, 0);
    SameArtifact(w, tenant, list, n, id);
    LostBy(end, list, faults, held, made, n, id);
  }

  // In terms of the candidate at which the run stops.
  lemma LostBy(end: Racing, list: seq<Artifact>, faults: nat -> Fault, held: set<string>, made: nat -> References,
               n: nat, id: string)
    requires StopsAt(end, list, faults, held, made, 0, n)
    ensures ObjectLost(list, faults, held, made, id) <==>
            Among(list, n, id) || (n < |list| && list[n].id == id && Reaches(list[n], faults(n)))
    ensures RowLost(list, faults, held, made, id) <==>
            Among(list, n, id) || (n < |list| && list[n].id == id && DropsRow(list[n], faults(n)) && id !in end.held)
    ensures RowLost(list, faults, held, made, id) ==> ObjectLost(list, faults, held, made, id)
  {
    forall i | 0 <= i <= |list| ensures GetsTo(list, faults, held, made, i) <==> i <= n {
      if i > n { assert !GoesOn(list, faults, held, made, n); }
    }
    if Among(list, n, id) {
      var i :| 0 <= i < n && i < |list| && list[i].id == id;
      assert GoesOn(list, faults, held, made, i) && GetsTo(list, faults, held, made, i);
      assert RowLost(list, faults, held, made, id) && ObjectLost(list, faults, held, made, id);
    }
  }

  // Before the run can fail in any way: the artifact is safe exactly if it is not listed, or the
  // run certainly stops at an earlier candidate, which a file or certificate holds by its turn.
  ghost predicate Shielded(list: seq<Artifact>, held: set<string>, made: nat -> References, id: string) {
    forall i :: 0 <= i < |list| && list[i].id == id ==>
      exists j :: 0 <= j < i && HeldBefore(held, made, j + 1, list[j].id)
  }

  ghost predicate Survives(w: World, held: set<string>, list: seq<Artifact>, faults: nat -> Fault,
                           made: nat -> References, id: string)
    requires id in w.rows
  {
    var end := Race(Racing(w, held), list, faults, made, 0).0.w;
    id in end.rows && w.rows[id].key in end.objects
  }

  lemma ShieldedKeeps(list: seq<Artifact>, faults: nat -> Fault, held: set<string>, made: nat -> References, id: string)
    requires Shielded(list, held, made, id)
    ensures !ObjectLost(list, faults, held, made, id)
  {
    forall i | 0 <= i < |list| && list[i].id == id ensures !GetsTo(list, faults, held, made, i) {
      var j :| 0 <= j < i && HeldBefore(held, made, j + 1, list[j].id);
      assert !GoesOn(list, faults, held, made, j);
    }
  }

  lemma UnshieldedLost(list: seq<Artifact>, held: set<string>, made: nat -> References, id: string)
    requires !Shielded(list, held, made, id)
    ensures ObjectLost(list, (i: nat) => Fine, held, made, id)
  {
    var fine := (i: nat) => Fine;
    var i :| 0 <= i < |list| && list[i].id == id &&
      !exists j :: 0 <= j < i && HeldBefore(held, made, j + 1, list[j].id);
    assert GetsTo(list, fine, held, made, i) && Reaches(list[i], fine(i));
  }

  lemma AlwaysSafeIff(w: World, held: set<string>, tenant: string, list: seq<Artifact>, made: nat -> References,
                      id: string)
    requires OrphanList(w, tenant, list) && held <= w.rows.Keys && UniqueKeys(w)
    requires id in w.rows && w.rows[id].id == id && w.rows[id].tenant == tenant && w.rows[id].key in w.objects
    ensures (forall faults :: Survives(w, held, list, faults, made, id)) <==> Shielded(list, held, made, id)
  {
    if Shielded(list, held, made, id) {
      forall faults ensures Survives(w, held, list, faults, made, id) {
        SurvivesIff(w, held, tenant, list, faults, made, id);
        ShieldedKeeps(list, faults, held, made, id);
      }
    } else {
      var fine := (i: nat) => Fine;
      SurvivesIff(w, held, tenant, list, fine, made, id);
      UnshieldedLost(list, held, made, id);
      assert !Survives(w, held, list, fine, made, id);
    }
  }

  lemma SurvivesIff(w: World, held: set<string>, tenant: string, list: seq<Artifact>, faults: nat -> Fault,
                    made: nat -> References, id: string)
    requires OrphanList(w, tenant, list) && held <= w.rows.Keys && UniqueKeys(w)
    requires id in w.rows && w.rows[id].id == id && w.rows[id].tenant == tenant && w.rows[id].key in w.objects
    ensures Survives(w, held, list, faults, made, id) <==> !ObjectLost(list, faults, held, made, id)
  {
    ReuseSafeIff(w, held, tenant, list, faults, made, id);
  }

  // The references that appear before the first turn, and no others.
  function AtFirst(refs: References): nat -> References { (i: nat) => if i == 0 then refs else References({}, {}) }

  // One orphan and no fault: a file that reuses it in time keeps the row and loses the object, an
  // app version loses both.
  lemma ReuseLosesObject(a: Artifact)
    ensures var w := World(map[a.id := a], {a.key}, {});
            var fine := (i: nat) => Fine;
            && OrphanList(w, a.tenant, [a])
            && (var end := Race(Racing(w, {}), [a], fine, AtFirst(References({a.id}, {})), 0).0;
                a.id in end.w.refs && a.id in end.w.rows && a.key !in end.w.objects)
            && (var end := Race(Racing(w, {}), [a], fine, AtFirst(References({}, {a.id})), 0).0;
                a.id in end.w.refs && a.id !in end.w.rows && a.key !in end.w.objects)
  {
    var w := World(map[a.id := a], {a.key}, {});
    assert [a][0].id == a.id;
  }

  lemma SameArtifact(w: World, tenant: string, list: seq<Artifact>, n: nat, id: string)
    requires OrphanList(w, tenant, list) && UniqueKeys(w) && id in w.rows && w.rows[id].tenant == tenant
    ensures KeyAmong(list, n, w.rows[id].key) <==> Among(list, n, id)
    ensures forall i :: 0 <= i < |list| ==> (list[i].key == w.rows[id].key <==> list[i].id == id)
  {
    forall i | 0 <= i < |list| ensures list[i].key == w.rows[id].key <==> list[i].id == id {
      assert Orphan(w, tenant, list[i].id) && w.rows[list[i].id] == list[i];
    }
  }
}
