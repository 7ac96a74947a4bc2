// Signing, verifying and numbering config snapshots (server/internal/enrollment/snapshot.go,
// 15-110) and the device's verifier (ConfigSnapshotVerifier.kt, 15-42). Hash, MAC, base64 and
// the printing of a float64 are parameters.
module ConfigSnapshot {
  import opened Wrappers
  import opened CanonicalJson
  import opened CanonicalParser
  import Text

  type Bytes = seq<nat>

  // hmac(secret, text), base64 of a MAC, its decoder, the decimal of the hash's first 8 bytes,
  // and a number token read as float64 and printed again.
  datatype Library = Library(mac: (string, string) -> Bytes, encode: Bytes -> string, decode: string -> Option<Bytes>,
                             revision: string -> string, float: string -> string)

  ghost predicate Lawful(c: Library) {
    && (forall m :: c.decode(c.encode(m)) == Some(m))
    && (forall k, t :: c.encode(c.mac(k, t)) != "")
    && (forall t :: NumberToken(t) ==> NumberToken(c.float(t)))
  }

  ghost predicate CollisionFree(c: Library, secret: string) {
    forall t, u :: c.mac(secret, t) == c.mac(secret, u) ==> t == u
  }

  // The five parts that come from the stores are carried as their JSON values.
  datatype Snapshot = Snapshot(version: string, runtime: Json, device: string, policy: Json,
                               apps: Json, files: Json, certificates: Json, signature: string)

  predicate WellFormed(s: Snapshot) {
    Normalised(s.runtime) && Normalised(s.policy) && Normalised(s.apps) && Normalised(s.files) &&
    Normalised(s.certificates)
  }

  // json.Marshal: also what the device receives.
  function ToJson(s: Snapshot): Json {
    Obj(map["version" := Str(s.version), "runtime" := s.runtime,
            "device" := Obj(map["deviceId" := Str(s.device)]), "policy" := s.policy,
            "apps" := s.apps, "files" := s.files, "certificates" := s.certificates,
            "signature" := Str(s.signature)])
  }

  // json.Unmarshal into `any`: numbers become float64.
  function Reread(c: Library, v: Json): Json {
    match v
    case Num(token) => Num(c.float(token))
    case Arr(items) => Arr(seq(|items|, i requires 0 <= i < |items| => Reread(c, items[i])))
    case Obj(fields) => Obj(map k | k in fields :: Reread(c, fields[k]))
    case _ => v
  }

  // The snapshot as the server sees it when it signs and numbers it.
  function Rounded(c: Library, s: Snapshot): Snapshot {
    Snapshot(s.version, Reread(c, s.runtime), s.device, Reread(c, s.policy), Reread(c, s.apps), Reread(c, s.files),
             Reread(c, s.certificates), s.signature)
  }

  datatype VerifyError = InvalidSecret | MissingSignature | InvalidSignature

  ghost function SignedText(c: Library, s: Snapshot): string { Print(Go, Reread(c, ToJson(s.(signature := "")))) }

  // SignConfigSnapshot (39-49); None for the empty secret.
  ghost function Sign(c: Library, s: Snapshot, secret: string): Option<Snapshot> {
    if secret == "" then None
    else Some(s.(signature := c.encode(c.mac(secret, SignedText(c, s)))))
  }

  // VerifyConfigSnapshot (51-70); None when it accepts.
  ghost function Verify(c: Library, s: Snapshot, secret: string): Option<VerifyError> {
    if secret == "" then Some(InvalidSecret)
    else if s.signature == "" then Some(MissingSignature)
    else if c.decode(s.signature) == Some(c.mac(secret, SignedText(c, s))) then None
    else Some(InvalidSignature)
  }

  // snapshotRevision (91-110).
  ghost function RevisionText(c: Library, s: Snapshot): string {
    Print(Go, Reread(c, ToJson(s.(version := "", signature := "", device := ""))))
  }

  ghost function Revision(c: Library, s: Snapshot): string { c.revision(RevisionText(c, s)) }

  // NewBootstrapConfigSnapshot (15-37).
  ghost function Bootstrap(c: Library, device: string, runtime: Json, policy: Json, apps: Json, files: Json,
                           certificates: Json): Snapshot {
    var s := Snapshot("", runtime, device, policy, apps, files, certificates, "");
    s.(version := Revision(c, s))
  }

  // The device: same text by its own writer, and a comparison of encoded signatures.
  ghost predicate DeviceAccepts(c: Library, s: Snapshot, secret: string) {
    !Text.IsBlank(secret) && s.signature == c.encode(c.mac(secret, Print(Gson, ToJson(s.(signature := "")))))
  }

  // The names under which a device finds the parts.
  lemma FieldsNamed(c: Library, s: Snapshot)
    ensures ToJson(s).Obj?
    ensures var f := ToJson(s).fields;
            && f.Keys == {"version", "runtime", "device", "policy", "apps", "files", "certificates", "signature"}
            && f["version"] == Str(s.version) && f["signature"] == Str(s.signature)
            && f["device"] == Obj(map["deviceId" := Str(s.device)])
            && f["runtime"] == s.runtime && f["policy"] == s.policy && f["apps"] == s.apps
            && f["files"] == s.files && f["certificates"] == s.certificates
  {
  }

  // A new snapshot carries what the stores gave, is unsigned, and only its version is computed.
  lemma BootstrapCarries(c: Library, device: string, runtime: Json, policy: Json, apps: Json, files: Json,
                         certificates: Json)
    ensures var s := Bootstrap(c, device, runtime, policy, apps, files, certificates);
            s == Snapshot(s.version, runtime, device, policy, apps, files, certificates, "")
  {
  }

  // Without a secret nothing is signed or accepted, without a signature nothing is accepted.
  lemma Refused(c: Library, s: Snapshot, secret: string)
    requires Lawful(c)
    ensures Sign(c, s, "") == None && Verify(c, s, "") == Some(InvalidSecret)
    ensures secret != "" && s.signature == "" ==> Verify(c, s, secret) == Some(MissingSignature)
    ensures secret != "" && s.signature != "" ==> Verify(c, s, secret) in {None, Some(InvalidSignature)}
    ensures s.signature == "" || Text.IsBlank(secret) ==> !DeviceAccepts(c, s, secret)
  {
  }

  // Whose signature is accepted: by the server any base64 of the MAC, by the device its one text.
  lemma AcceptsMeans(c: Library, s: Snapshot, secret: string)
    requires secret != "" && s.signature != ""
    ensures var v := ToJson(s.(signature := ""));
            && (Verify(c, s, secret) == None <==> c.decode(s.signature) == Some(c.mac(secret, Print(Go, Reread(c, v)))))
            && (!Text.IsBlank(secret) ==>
                  (DeviceAccepts(c, s, secret) <==> s.signature == c.encode(c.mac(secret, Print(Gson, v)))))
  {
  }

  lemma ToJsonInjective(s: Snapshot, t: Snapshot)
    requires ToJson(s) == ToJson(t)
    ensures s == t
  {
    var a, b := ToJson(s).fields, ToJson(t).fields;
    assert a["version"] == b["version"] && a["runtime"] == b["runtime"] && a["device"] == b["device"];
    assert a["policy"] == b["policy"] && a["apps"] == b["apps"] && a["files"] == b["files"];
    assert a["certificates"] == b["certificates"] && a["signature"] == b["signature"];
    assert a["device"].fields["deviceId"] == b["device"].fields["deviceId"];
  }

  lemma {:induction false} RereadNormalised(c: Library, v: Json)
    requires Lawful(c) && Normalised(v)
    ensures Normalised(Reread(c, v))
  {
    match v
    case Arr(items) =>
      forall i | 0 <= i < |items| ensures Normalised(Reread(c, items[i])) { RereadNormalised(c, items[i]); }
    case Obj(fields) =>
      forall k | k in fields ensures Normalised(Reread(c, fields[k])) { RereadNormalised(c, fields[k]); }
    case _ =>
  }

  lemma RereadField(c: Library, fields: map<string, Json>, after: map<string, Json>, k: string, v: Json)
    requires Reread(c, Obj(fields)) == Obj(after)
    ensures Reread(c, Obj(fields[k := v])) == Obj(after[k := Reread(c, v)])
  {
    assert Reread(c, Obj(fields[k := v])).fields == after[k := Reread(c, v)];
  }

  lemma RereadOne(c: Library, k: string, v: Json)
    ensures Reread(c, Obj(map[k := v])) == Obj(map[k := Reread(c, v)])
  {
    assert Reread(c, Obj(map[])).fields == map[];
    RereadField(c, map[], map[], k, v);
  }

  lemma RereadParts(c: Library, s: Snapshot)
    ensures Reread(c, ToJson(s)) == ToJson(Rounded(c, s))
  {
    var r := Rounded(c, s);
    var device := Obj(map["deviceId" := Str(s.device)]);
    RereadOne(c, "deviceId", Str(s.device));
    var m := map["version" := Str(s.version)];
    RereadOne(c, "version", Str(s.version));
    RereadField(c, m, m, "runtime", s.runtime);
    var n := m["runtime" := r.runtime];
    m := m["runtime" := s.runtime];
    RereadField(c, m, n, "device", device);
    m, n := m["device" := device], n["device" := device];
    RereadField(c, m, n, "policy", s.policy);
    m, n := m["policy" := s.policy], n["policy" := r.policy];
    RereadField(c, m, n, "apps", s.apps);
    m, n := m["apps" := s.apps], n["apps" := r.apps];
    RereadField(c, m, n, "files", s.files);
    m, n := m["files" := s.files], n["files" := r.files];
    RereadField(c, m, n, "certificates", s.certificates);
    m, n := m["certificates" := s.certificates], n["certificates" := r.certificates];
    RereadField(c, m, n, "signature", Str(s.signature));
  }

  lemma JsonNormalised(s: Snapshot)
    requires WellFormed(s)
    ensures Normalised(ToJson(s))
  {
  }

  // Two canonical texts of the server are equal iff the snapshots are, up to float64.
  lemma TextDetermines(c: Library, s: Snapshot, t: Snapshot)
    requires Lawful(c) && WellFormed(s) && WellFormed(t)
    ensures Print(Go, Reread(c, ToJson(s))) == Print(Go, Reread(c, ToJson(t))) <==> Rounded(c, s) == Rounded(c, t)
  {
    RereadParts(c, s);
    RereadParts(c, t);
    JsonNormalised(s);
    JsonNormalised(t);
    RereadNormalised(c, ToJson(s));
    RereadNormalised(c, ToJson(t));
    Unambiguous(Go, Reread(c, ToJson(s)), Reread(c, ToJson(t)));
    if ToJson(Rounded(c, s)) == ToJson(Rounded(c, t)) { ToJsonInjective(Rounded(c, s), Rounded(c, t)); }
  }

  // Sign then verify succeeds; signing ignores any old signature, so it is idempotent.
  lemma SignVerifies(c: Library, s: Snapshot, secret: string, old_: string)
    requires Lawful(c) && secret != ""
    ensures Sign(c, s, secret).Some?
    ensures Sign(c, s, secret).value == s.(signature := Sign(c, s, secret).value.signature)
    ensures Verify(c, Sign(c, s, secret).value, secret) == None
    ensures Sign(c, s.(signature := old_), secret) == Sign(c, s, secret)
    ensures Sign(c, Sign(c, s, secret).value, secret) == Sign(c, s, secret)
  {
    assert s.(signature := old_).(signature := "") == s.(signature := "");
  }

  // A signature is accepted on another snapshot only where the MACs coincide; with a MAC that
  // does not collide, only on the very snapshot that was signed, up to float64.
  lemma AcceptedMeansSigned(c: Library, s: Snapshot, t: Snapshot, secret: string)
    requires Lawful(c) && secret != "" && WellFormed(s) && WellFormed(t)
    requires t.signature == Sign(c, s, secret).value.signature
    ensures Verify(c, t, secret) == None <==> c.mac(secret, SignedText(c, s)) == c.mac(secret, SignedText(c, t))
    ensures CollisionFree(c, secret) ==>
      (Verify(c, t, secret) == None <==> Rounded(c, t) == Rounded(c, Sign(c, s, secret).value))
  {
    assert c.decode(t.signature) == Some(c.mac(secret, SignedText(c, s)));
    var s', t' := s.(signature := ""), t.(signature := "");
    TextDetermines(c, s', t');
    assert Rounded(c, s') == Rounded(c, s).(signature := "") && Rounded(c, t') == Rounded(c, t).(signature := "");
  }

  // What the revision sees of a snapshot: runtime, policy, apps, files and certificates.
  ghost predicate SameContent(s: Snapshot, t: Snapshot) {
    s.runtime == t.runtime && s.policy == t.policy && s.apps == t.apps && s.files == t.files &&
    s.certificates == t.certificates
  }

  lemma RevisionDependsOn(c: Library, s: Snapshot, t: Snapshot)
    requires Lawful(c) && WellFormed(s) && WellFormed(t)
    ensures RevisionText(c, s) == RevisionText(c, t) <==> SameContent(Rounded(c, s), Rounded(c, t))
  {
    TextDetermines(c, s.(version := "", signature := "", device := ""),
                   t.(version := "", signature := "", device := ""));
  }

  // A device polling with its own id gets a new version exactly when something it applies has
  // changed, up to float64, provided the hash tells the two texts apart.
  lemma VersionChangesWithContent(c: Library, s: Snapshot, t: Snapshot)
    requires Lawful(c) && WellFormed(s) && WellFormed(t)
    requires c.revision(RevisionText(c, s)) == c.revision(RevisionText(c, t)) ==>
      RevisionText(c, s) == RevisionText(c, t)
    ensures var a := Bootstrap(c, s.device, s.runtime, s.policy, s.apps, s.files, s.certificates);
            var b := Bootstrap(c, t.device, t.runtime, t.policy, t.apps, t.files, t.certificates);
            a.version == b.version <==> SameContent(Rounded(c, s), Rounded(c, t))
  {
    RevisionDependsOn(c, s, t);
  }

  // Every number survives float64, as integers up to 2^53 do.
  predicate Exact(c: Library, v: Json) {
    match v
    case Num(token) => c.float(token) == token
    case Arr(items) => forall i :: 0 <= i < |items| ==> Exact(c, items[i])
    case Obj(fields) => forall k :: k in fields ==> Exact(c, fields[k])
    case _ => true
  }

  lemma {:induction false} ExactSurvives(c: Library, v: Json)
    ensures Exact(c, v) <==> Reread(c, v) == v
  {
    match v
    case Arr(items) =>
      forall i | 0 <= i < |items| ensures Exact(c, items[i]) <==> Reread(c, items[i]) == items[i] {
        ExactSurvives(c, items[i]);
      }
      if Reread(c, v) == v {
        forall i | 0 <= i < |items| ensures Exact(c, items[i]) { assert Reread(c, v).items[i] == items[i]; }
      }
    case Obj(fields) =>
      forall k | k in fields ensures Exact(c, fields[k]) <==> Reread(c, fields[k]) == fields[k] {
        ExactSurvives(c, fields[k]);
      }
      if Reread(c, v) == v {
        forall k | k in fields ensures Exact(c, fields[k]) { assert Reread(c, v).fields[k] == fields[k]; }
      }
    case _ =>
  }

  // Without collisions the device accepts exactly where both print one text.
  lemma AcceptsText(c: Library, s: Snapshot, secret: string)
    requires Lawful(c) && CollisionFree(c, secret) && !Text.IsBlank(secret)
    ensures secret != ""
    ensures DeviceAccepts(c, Sign(c, s, secret).value, secret) <==>
            SignedText(c, s) == Print(Gson, ToJson(s.(signature := "")))
  {
    var signed := Sign(c, s, secret).value;
    assert signed.(signature := "") == s.(signature := "");
    var go, gson := SignedText(c, s), Print(Gson, ToJson(s.(signature := "")));
    if DeviceAccepts(c, signed, secret) {
      assert c.decode(c.encode(c.mac(secret, go))) == c.decode(c.encode(c.mac(secret, gson)));
    }
  }

  // The device accepts what the server signed exactly when no string in the snapshot holds an
  // apostrophe or an equals sign, which Gson escapes and Go does not, and every number survives
  // float64, through which the server reads it and the device does not.
  lemma DeviceAcceptsServer(c: Library, s: Snapshot, secret: string)
    requires Lawful(c) && CollisionFree(c, secret) && !Text.IsBlank(secret) && WellFormed(s)
    ensures secret != ""
    ensures var v := ToJson(s.(signature := ""));
            DeviceAccepts(c, Sign(c, s, secret).value, secret) <==> Plain(v) && Exact(c, v)
  {
    AcceptsText(c, s, secret);
    var v := ToJson(s.(signature := ""));
    JsonNormalised(s.(signature := ""));
    RereadNormalised(c, v);
    TextsAgree(Reread(c, v), v);
    ExactSurvives(c, v);
  }

  // Two version codes that are one float64 give one version, and the device refuses the larger.
  lemma LargeNumberLost(c: Library, s: Snapshot, t: Snapshot, secret: string)
    requires Lawful(c) && CollisionFree(c, secret) && !Text.IsBlank(secret) && WellFormed(s)
    requires c.float("9007199254740993") == c.float("9007199254740992") == "9007199254740992"
    requires s.apps == Arr([Obj(map["versionCode" := Num("9007199254740993")])])
    requires t == s.(apps := Arr([Obj(map["versionCode" := Num("9007199254740992")])]))
    ensures secret != "" && s.apps != t.apps && RevisionText(c, s) == RevisionText(c, t)
    ensures !DeviceAccepts(c, Sign(c, s, secret).value, secret)
  {
    assert "9007199254740993"[15] == '3' && "9007199254740992"[15] == '2';
    RereadApp(c, "9007199254740993");
    RereadApp(c, "9007199254740992");
    assert s.apps.items[0].fields["versionCode"] != t.apps.items[0].fields["versionCode"];
    NotExact(c, s.(signature := ""));
    DeviceAcceptsServer(c, s, secret);
    assert Rounded(c, s) == Rounded(c, t);
    RereadParts(c, s.(version := "", signature := "", device := ""));
    RereadParts(c, t.(version := "", signature := "", device := ""));
  }

  lemma RereadApp(c: Library, code: string)
    ensures Reread(c, Arr([Obj(map["versionCode" := Num(code)])])) ==
      Arr([Obj(map["versionCode" := Num(c.float(code))])])
  {
    RereadOne(c, "versionCode", Num(code));
    var v := Arr([Obj(map["versionCode" := Num(code)])]);
    assert Reread(c, v).items == [Reread(c, v.items[0])];
  }

  lemma NotExact(c: Library, s: Snapshot)
    requires Reread(c, s.apps) != s.apps
    ensures !Exact(c, ToJson(s))
  {
    assert ToJson(s).fields["apps"] == s.apps;
    ExactSurvives(c, s.apps);
  }

  // A policy called Bob's is enough for a device to refuse its configuration.
  lemma ApostropheRefused(c: Library, device: string, secret: string)
    requires Lawful(c) && CollisionFree(c, secret) && !Text.IsBlank(secret)
    ensures secret != ""
    ensures var s := Bootstrap(c, device, Obj(map[]), Obj(map["name" := Str("Bob's")]), Arr([]), Arr([]), Arr([]));
            Verify(c, Sign(c, s, secret).value, secret) == None && !DeviceAccepts(c, Sign(c, s, secret).value, secret)
  {
    var s := Bootstrap(c, device, Obj(map[]), Obj(map["name" := Str("Bob's")]), Arr([]), Arr([]), Arr([]));
    DeviceAcceptsServer(c, s, secret);
    SignVerifies(c, s, secret, "");
    BobNotPlain(s.(signature := ""));
  }

  lemma BobNotPlain(s: Snapshot)
    requires s.policy == Obj(map["name" := Str("Bob's")])
    ensures !Plain(ToJson(s))
  {
    assert GsonOnly("Bob's"[3]);
    var v := ToJson(s);
    assert "policy" in v.fields && v.fields["policy"] == s.policy;
    assert "name" in s.policy.fields && s.policy.fields["name"] == Str("Bob's");
    assert !Plain(s.policy);
  }
}
