// The token-bucket limiter of server/internal/httpx/rate_limit.go. Durations are nanoseconds,
// times are nanoseconds since Go's zero time, tokens are real numbers.
module RateLimiter {
  import opened Wrappers

  const SECOND := 1_000_000_000

  datatype Rule = Rule(name: string, verb: string, prefix: string, burst: int, refillInterval: int, retryAfter: int)

  datatype Bucket = Bucket(tokens: real, last: nat)

  // One call of allow with the key already computed.
  datatype Hit = Hit(rule: Rule, key: string, now: nat)

  function Refill(rule: Rule): (r: int)
    ensures r >= 1 && (rule.refillInterval >= 1 ==> r == rule.refillInterval)
  {
    if rule.refillInterval <= 0 then SECOND else rule.refillInterval
  }

  function Min(a: real, b: real): real { if a <= b then a else b }

  // allow (81-120) on the bucket of the key: the new bucket and the answer.
  function Take(rule: Rule, b: Option<Bucket>, now: nat): (Option<Bucket>, bool) {
    if rule.burst <= 0 then (b, true)
    else match b
      case None => (Some(Bucket((rule.burst - 1) as real, now)), true)
      case Some(bucket) =>
        var last := if bucket.last == 0 then now else bucket.last;
        var full := if now > last
                    then Bucket(Min(rule.burst as real, bucket.tokens + (now - last) as real / Refill(rule) as real),
                                now)
                    else bucket.(last := last);
        if full.tokens < 1.0 then (Some(full), false)
        else (Some(full.(tokens := full.tokens - 1.0)), true)
  }

  function Get(m: map<string, Bucket>, key: string): Option<Bucket> {
    if key in m then Some(m[key]) else None
  }

  function Put(m: map<string, Bucket>, key: string, b: Option<Bucket>): map<string, Bucket> {
    if b.Some? then m[key := b.value] else m
  }

  // The buckets after any sequence of requests, on any keys, at any clock readings.
  function After(hits: seq<Hit>): map<string, Bucket> {
    if hits == [] then map[]
    else
      var n := |hits| - 1;
      var m := After(hits[..n]);
      Put(m, hits[n].key, Take(hits[n].rule, Get(m, hits[n].key), hits[n].now).0)
  }

  function Admits(hits: seq<Hit>, h: Hit): bool {
    Take(h.rule, Get(After(hits), h.key), h.now).1
  }

  function Sum(s: seq<nat>): nat {
    if s == [] then 0 else Sum(s[..|s| - 1]) + s[|s| - 1]
  }

  // Requests on `key` admitted among hits[from..until].
  function Admitted(hits: seq<Hit>, key: string, from: nat, until: nat): nat
    requires from <= until <= |hits|
  {
    Sum(TookFrom(hits, key, from, until))
  }

  function TookFrom(hits: seq<Hit>, key: string, from: nat, until: nat): (r: seq<nat>)
    requires from <= until <= |hits|
    ensures |r| == until - from && forall i :: 0 <= i < |r| ==> r[i] == Took(hits, key, from + i)
  {
    seq<nat>(until - from, i requires 0 <= i < until - from => Took(hits, key, from + i))
  }

  function Took(hits: seq<Hit>, key: string, i: nat): nat
    requires i < |hits|
  {
    if hits[i].key == key && Admits(hits[..i], hits[i]) then 1 else 0
  }

  // Every request on this key falls under this rule.
  predicate Governed(hits: seq<Hit>, key: string, rule: Rule) {
    forall i :: 0 <= i < |hits| && hits[i].key == key ==> hits[i].rule == rule
  }

  // Rules may share a bucket: every request on this key falls under a limiting rule with at
  // most this burst and at least this refill interval.
  predicate Capped(hits: seq<Hit>, key: string, burst: int, refill: int) {
    forall i :: 0 <= i < |hits| && hits[i].key == key ==>
      1 <= hits[i].rule.burst <= burst && Refill(hits[i].rule) >= refill
  }

  predicate InRange(burst: int, b: Option<Bucket>) {
    b.Some? ==> 0.0 <= b.value.tokens <= burst as real
  }

  // One request: what it takes is paid for by the refill between the two values of `last`.
  lemma TakeStep(rule: Rule, burst: int, b: Option<Bucket>, now: nat)
    requires 1 <= rule.burst <= burst && InRange(burst, b)
    ensures var (b', ok) := Take(rule, b, now);
            && b'.Some? && InRange(burst, b')
            && (ok ==> b'.value.tokens <= burst as real - 1.0)
            && (b.Some? ==> b'.value.last >= b.value.last)
            && (b.Some? ==> b'.value.tokens + (if ok then 1.0 else 0.0) <=
                            b.value.tokens + (b'.value.last - b.value.last) as real / Refill(rule) as real)
  {
    if b.Some? {
      var (b', ok) := Take(rule, b, now);
      Quotient((b'.value.last - b.value.last) as real, Refill(rule) as real);
    }
  }

  // Exactly: a bucket fills up with the time since it was last looked at, to the burst at most and
  // with fractions kept; a request takes one token and is admitted when there is a whole one. A
  // bucket at Go's zero time starts its clock now.
  lemma TakeExact(rule: Rule, bucket: Bucket, now: nat)
    requires rule.burst >= 1 && bucket.tokens <= rule.burst as real
    ensures var (b', ok) := Take(rule, Some(bucket), now);
            var elapsed: nat := if bucket.last > 0 && now > bucket.last then now - bucket.last else 0;
            var refilled := bucket.tokens + elapsed as real / Refill(rule) as real;
            var full := if refilled <= rule.burst as real then refilled else rule.burst as real;
            && b'.Some? && b'.value.last == (if now > bucket.last then now else bucket.last)
            && (ok <==> full >= 1.0)
            && b'.value.tokens + (if ok then 1.0 else 0.0) == full
  {
  }

  // A rule without a burst limits nothing, and a first request is always admitted.
  lemma FirstAdmitted(rule: Rule, now: nat)
    ensures Take(rule, None, now).1
    ensures rule.burst <= 0 ==> forall b :: Take(rule, b, now) == (b, true)
    ensures rule.burst >= 1 ==> Take(rule, None, now).0 == Some(Bucket((rule.burst - 1) as real, now))
  {
  }

  lemma LargerDivisor(x: real, d: real, e: real)
    requires x >= 0.0 && e >= d > 0.0
    ensures x / e <= x / d
  {
    assert x / e * e == x && x / d * d == x;
    assert x / e * d <= x / e * e;
  }

  lemma Quotient(x: real, d: real)
    requires x >= 0.0 && d > 0.0
    ensures x / d >= 0.0
  {
  }

  lemma AfterStep(hits: seq<Hit>, h: Hit, key: string)
    ensures Get(After(hits + [h]), key) ==
            if h.key == key then Take(h.rule, Get(After(hits), key), h.now).0 else Get(After(hits), key)
  {
    assert (hits + [h])[..|hits|] == hits;
  }

  // Tokens stay in [0, Burst], whatever the traffic and the clock.
  lemma {:induction false} TokensInRange(hits: seq<Hit>, key: string, burst: int, refill: int)
    requires Capped(hits, key, burst, refill)
    ensures InRange(burst, Get(After(hits), key))
  {
    if hits != [] {
      var n := |hits| - 1;
      TokensInRange(hits[..n], key, burst, refill);
      assert hits == hits[..n] + [hits[n]];
      AfterStep(hits[..n], hits[n], key);
      if hits[n].key == key { TakeStep(hits[n].rule, burst, Get(After(hits[..n]), key), hits[n].now); }
    }
  }

  // One step of the window argument: `took` requests were paid for between two bucket states.
  ghost predicate Paid(before: Bucket, after: Bucket, took: nat, d: real)
    requires d > 0.0
  {
    before.last <= after.last &&
    took as real + after.tokens <= before.tokens + (after.last - before.last) as real / d
  }

  lemma StepPaid(hits: seq<Hit>, key: string, burst: int, refill: int, i: nat)
    requires refill >= 1 && Capped(hits, key, burst, refill) && i < |hits|
    ensures var b, b' := Get(After(hits[..i]), key), Get(After(hits[..i + 1]), key);
            && (hits[i].key == key ==> b'.Some? && Took(hits, key, i) as real + b'.value.tokens <= burst as real)
            && (b.Some? ==> b'.Some? && Paid(b.value, b'.value, Took(hits, key, i), refill as real))
  {
    var b, b' := Get(After(hits[..i]), key), Get(After(hits[..i + 1]), key);
    TokensInRange(hits[..i], key, burst, refill);
    assert hits[..i + 1] == hits[..i] + [hits[i]];
    AfterStep(hits[..i], hits[i], key);
    if hits[i].key == key {
      TakeStep(hits[i].rule, burst, b, hits[i].now);
      if b.Some? {
        LargerDivisor((b'.value.last - b.value.last) as real, refill as real, Refill(hits[i].rule) as real);
      }
    }
  }

  // The steps add up: what was admitted, plus what is left, is at most Burst plus the refill.
  lemma {:induction false} Telescope(bs: seq<Bucket>, took: seq<nat>, burst: real, d: real)
    requires |bs| == |took| >= 1 && d > 0.0
    requires took[0] as real + bs[0].tokens <= burst
    requires forall i :: 1 <= i < |bs| ==> Paid(bs[i - 1], bs[i], took[i], d)
    ensures var end := bs[|bs| - 1];
            bs[0].last <= end.last && Sum(took) as real + end.tokens <= burst + (end.last - bs[0].last) as real / d
  {
    var n := |bs| - 1;
    if n == 0 {
      assert took[..0] == [];
    } else {
      Telescope(bs[..n], took[..n], burst, d);
      assert Paid(bs[n - 1], bs[n], took[n], d);
      AddQuotients((bs[n - 1].last - bs[0].last) as real, (bs[n].last - bs[n - 1].last) as real, d);
    }
  }

  lemma AddQuotients(x: real, y: real, d: real)
    requires d > 0.0
    ensures x / d + y / d == (x + y) / d
  {
  }

  lemma {:induction false} KnownFrom(hits: seq<Hit>, key: string, burst: int, refill: int, from: nat, i: nat)
    requires refill >= 1 && Capped(hits, key, burst, refill)
    requires from < i <= |hits| && hits[from].key == key
    ensures Get(After(hits[..i]), key).Some?
  {
    if i > from + 1 { KnownFrom(hits, key, burst, refill, from, i - 1); }
    StepPaid(hits, key, burst, refill, i - 1);
  }

  function BucketAt(hits: seq<Hit>, key: string, i: nat): Bucket
    requires i <= |hits|
  {
    var b := Get(After(hits[..i]), key);
    if b.Some? then b.value else Bucket(0.0, 0)
  }

  lemma PaidAt(hits: seq<Hit>, key: string, burst: int, refill: int, from: nat, k: nat)
    requires refill >= 1 && Capped(hits, key, burst, refill)
    requires from < k < |hits| && hits[from].key == key
    ensures Paid(BucketAt(hits, key, k), BucketAt(hits, key, k + 1), Took(hits, key, k), refill as real)
  {
    KnownFrom(hits, key, burst, refill, from, k);
    StepPaid(hits, key, burst, refill, k);
  }

  lemma FirstPaid(hits: seq<Hit>, key: string, burst: int, refill: int, from: nat)
    requires refill >= 1 && Capped(hits, key, burst, refill)
    requires from < |hits| && hits[from].key == key
    ensures Took(hits, key, from) as real + BucketAt(hits, key, from + 1).tokens <= burst as real
  {
    StepPaid(hits, key, burst, refill, from);
  }

  lemma AllPaid(hits: seq<Hit>, key: string, burst: int, refill: int, from: nat, until: nat)
    requires refill >= 1 && Capped(hits, key, burst, refill)
    requires from < until <= |hits| && hits[from].key == key
    ensures var bs, took := BucketsFrom(hits, key, from, until), TookFrom(hits, key, from, until);
            forall i :: 1 <= i < |bs| ==> Paid(bs[i - 1], bs[i], took[i], refill as real)
  {
    var bs, took := BucketsFrom(hits, key, from, until), TookFrom(hits, key, from, until);
    forall i | 1 <= i < |bs| ensures Paid(bs[i - 1], bs[i], took[i], refill as real) {
      PaidAt(hits, key, burst, refill, from, from + i);
    }
  }

  // In any window of any traffic, at most burst + length / refill requests of one key are
  // admitted, whatever rules share it; the length is measured on the bucket's own monotone clock.
  lemma WindowBound(hits: seq<Hit>, key: string, burst: int, refill: int, from: nat, until: nat)
    requires refill >= 1 && Capped(hits, key, burst, refill)
    requires from < until <= |hits| && hits[from].key == key
    ensures var length := BucketAt(hits, key, until).last - BucketAt(hits, key, from + 1).last;
            length >= 0 && Admitted(hits, key, from, until) as real <= burst as real + length as real / refill as real
  {
    var bs, took := BucketsFrom(hits, key, from, until), TookFrom(hits, key, from, until);
    AllPaid(hits, key, burst, refill, from, until);
    FirstPaid(hits, key, burst, refill, from);
    assert bs[0] == BucketAt(hits, key, from + 1) && bs[|bs| - 1] == BucketAt(hits, key, until);
    Telescope(bs, took, burst as real, refill as real);
    TokensLeft(hits, key, burst, refill, until);
  }

  // The bucket after each request of the window.
  function BucketsFrom(hits: seq<Hit>, key: string, from: nat, until: nat): (r: seq<Bucket>)
    requires from <= until <= |hits|
    ensures |r| == until - from && forall i :: 0 <= i < |r| ==> r[i] == BucketAt(hits, key, from + 1 + i)
  {
    seq(until - from, i requires 0 <= i < until - from => BucketAt(hits, key, from + 1 + i))
  }

  lemma TokensLeft(hits: seq<Hit>, key: string, burst: int, refill: int, i: nat)
    requires Capped(hits, key, burst, refill) && i <= |hits|
    ensures BucketAt(hits, key, i).tokens >= 0.0
  {
    TokensInRange(hits[..i], key, burst, refill);
  }

  // --- Retry-After (44-58, 133-139) --------------------------------------------------------

  // The fewest whole seconds that cover the rule's Retry-After, one second where it has none.
  function Advertised(rule: Rule): (r: int)
    ensures r >= 1
    ensures rule.retryAfter > 0 ==> (r - 1) * SECOND < rule.retryAfter <= r * SECOND
    ensures rule.retryAfter <= 0 ==> r == 1
  {
    var d := if rule.retryAfter <= 0 then SECOND else rule.retryAfter;
    (d + SECOND - 1) / SECOND
  }

  predicate NotAfter(hits: seq<Hit>, now: nat) {
    forall i :: 0 <= i < |hits| ==> hits[i].now <= now
  }

  predicate Avoids(hits: seq<Hit>, key: string) {
    forall i :: 0 <= i < |hits| ==> hits[i].key != key
  }

  lemma {:induction false} LastNotAfter(hits: seq<Hit>, key: string, now: nat)
    requires NotAfter(hits, now)
    ensures Get(After(hits), key).Some? ==> Get(After(hits), key).value.last <= now
  {
    if hits != [] {
      var n := |hits| - 1;
      LastNotAfter(hits[..n], key, now);
      assert hits == hits[..n] + [hits[n]];
      AfterStep(hits[..n], hits[n], key);
    }
  }

  lemma {:induction false} OthersLeaveBucket(hits: seq<Hit>, others: seq<Hit>, key: string)
    requires Avoids(others, key)
    ensures Get(After(hits + others), key) == Get(After(hits), key)
  {
    if others == [] {
      assert hits + others == hits;
    } else {
      var n := |others| - 1;
      assert hits + others == (hits + others[..n]) + [others[n]];
      AfterStep(hits + others[..n], others[n], key);
      OthersLeaveBucket(hits, others[..n], key);
    }
  }

  // One denied request and the next request on its key.
  datatype Denial = Denial(hits: seq<Hit>, key: string, at: nat, others: seq<Hit>, again: nat)

  ghost predicate Waited(rule: Rule, d: Denial) {
    && Governed(d.hits, d.key, rule) && NotAfter(d.hits, d.at) && d.at > 0
    && !Admits(d.hits, Hit(rule, d.key, d.at))
    && Avoids(d.others, d.key) && d.again >= d.at + Advertised(rule) * SECOND
  }

  ghost predicate AdmittedAgain(rule: Rule, d: Denial) {
    Admits(d.hits + [Hit(rule, d.key, d.at)] + d.others, Hit(rule, d.key, d.again))
  }

  // A client that waits the advertised seconds is always admitted.
  ghost predicate Honest(rule: Rule) {
    forall d: Denial :: Waited(rule, d) ==> AdmittedAgain(rule, d)
  }

  lemma WaitingHelps(rule: Rule, d: Denial)
    requires rule.burst >= 1 && Waited(rule, d) && Advertised(rule) * SECOND >= Refill(rule)
    ensures AdmittedAgain(rule, d)
  {
    var h := Hit(rule, d.key, d.at);
    TokensInRange(d.hits, d.key, rule.burst, Refill(rule));
    LastNotAfter(d.hits, d.key, d.at);
    AfterStep(d.hits, h, d.key);
    OthersLeaveBucket(d.hits + [h], d.others, d.key);
    TakeStep(rule, rule.burst, Get(After(d.hits), d.key), d.at);
    var b := Get(After(d.hits + [h]), d.key).value;
    assert b.last == d.at && b.tokens >= 0.0;
    AtLeastOne((d.again - d.at) as real, Refill(rule) as real);
  }

  lemma AtLeastOne(x: real, d: real)
    requires x >= d > 0.0
    ensures x / d >= 1.0
  {
  }

  // `n` requests at one instant.
  function Volley(rule: Rule, key: string, n: nat): (hits: seq<Hit>)
    ensures |hits| == n && forall i :: 0 <= i < n ==> hits[i] == Hit(rule, key, 1)
  {
    if n == 0 then [] else Volley(rule, key, n - 1) + [Hit(rule, key, 1)]
  }

  lemma {:induction false} VolleyDrains(rule: Rule, key: string, n: nat)
    requires 1 <= n <= rule.burst
    ensures Get(After(Volley(rule, key, n)), key) == Some(Bucket((rule.burst - n) as real, 1))
  {
    AfterStep(Volley(rule, key, n - 1), Hit(rule, key, 1), key);
    if n > 1 {
      VolleyDrains(rule, key, n - 1);
    }
  }

  // A client denied after a volley, that comes back when it was told to, is denied again.
  lemma DeniedAgain(rule: Rule)
    requires rule.burst >= 1 && Advertised(rule) * SECOND < Refill(rule)
    ensures !Honest(rule)
  {
    var hits, h := Volley(rule, "k", rule.burst), Hit(rule, "k", 1);
    var wait := Advertised(rule) * SECOND;
    VolleyDrains(rule, "k", rule.burst);
    AfterStep(hits, h, "k");
    assert hits + [h] + [] == hits + [h];
    BelowOne(wait as real, Refill(rule) as real);
    var d := Denial(hits, "k", 1, [], 1 + wait);
    assert Take(rule, Some(Bucket(0.0, 1)), 1) == (Some(Bucket(0.0, 1)), false);
    assert Waited(rule, d);
    assert !AdmittedAgain(rule, d);
  }

  // Retry-After is honest exactly when the advertised seconds cover one refill interval; so it
  // is for every rule with RetryAfter >= RefillInterval.
  lemma RetryAfterHonest(rule: Rule)
    requires rule.burst >= 1
    ensures Honest(rule) <==> Advertised(rule) * SECOND >= Refill(rule)
    ensures rule.retryAfter >= rule.refillInterval ==> Honest(rule)
  {
    if Advertised(rule) * SECOND >= Refill(rule) {
      forall d: Denial | Waited(rule, d) ensures AdmittedAgain(rule, d) { WaitingHelps(rule, d); }
    } else {
      DeniedAgain(rule);
    }
  }

  lemma BelowOne(x: real, d: real)
    requires 0.0 <= x < d
    ensures x / d < 1.0
  {
  }

  // The three rules of the API router all keep their promise.
  const DEFAULT_RULES := [
    Rule("admin-login", "POST", "/admin/login", 100, 10 * SECOND, 10 * SECOND),
    Rule("admin-command-create", "POST", "/admin/commands/create", 100, 10 * SECOND, 10 * SECOND),
    Rule("enrollment", "POST", "/api/v1/enrollment", 20, 2 * SECOND, 2 * SECOND)]

  lemma DefaultRulesHonest(i: nat)
    requires i < |DEFAULT_RULES|
    ensures Honest(DEFAULT_RULES[i])
  {
    RetryAfterHonest(DEFAULT_RULES[i]);
  }

  // --- The handler -------------------------------------------------------------------------

  datatype Request = Request(verb: string, path: string, host: string)

  datatype Response = Served | TooManyRequests(retryAfterSeconds: int)

  predicate HasPrefix(s: string, prefix: string) { |prefix| <= |s| && s[..|prefix|] == prefix }

  predicate Applies(rule: Rule, r: Request) {
    (rule.verb == "" || rule.verb == r.verb) && (rule.prefix == "" || HasPrefix(r.path, rule.prefix))
  }

  // The earliest among the applicable rules with the longest prefix.
  predicate Best(rules: seq<Rule>, r: Request, k: nat) {
    && k < |rules| && Applies(rules[k], r)
    && (forall j :: 0 <= j < |rules| && Applies(rules[j], r) ==> |rules[j].prefix| <= |rules[k].prefix|)
    && (forall j :: 0 <= j < k && Applies(rules[j], r) ==> |rules[j].prefix| < |rules[k].prefix|)
  }

  function Key(rule: Rule, r: Request): string {
    (if rule.name == "" then r.verb + " " + r.path else rule.name) + "|" + r.host
  }

  // One call of allow: a request under one of the handler's rules.
  datatype Call = Call(request: Request, rule: nat, now: nat)

  predicate Under(rules: seq<Rule>, calls: seq<Call>) {
    forall i :: 0 <= i < |calls| ==> calls[i].rule < |rules|
  }

  function HitOf(rules: seq<Rule>, c: Call): Hit
    requires c.rule < |rules|
  {
    Hit(rules[c.rule], Key(rules[c.rule], c.request), c.now)
  }

  function Hits(rules: seq<Rule>, calls: seq<Call>): (hits: seq<Hit>)
    requires Under(rules, calls)
    ensures |hits| == |calls| && forall i :: 0 <= i < |hits| ==> hits[i] == HitOf(rules, calls[i])
  {
    seq(|calls|, i requires 0 <= i < |calls| => HitOf(rules, calls[i]))
  }

  // Whether allow admits a call after the calls before it.
  function Allows(rules: seq<Rule>, calls: seq<Call>, c: Call): bool
    requires Under(rules, calls) && c.rule < |rules|
  {
    Admits(Hits(rules, calls), HitOf(rules, c))
  }

  // Hosts are addresses, without the separator of the keys.
  predicate PlainHosts(calls: seq<Call>) {
    forall i :: 0 <= i < |calls| ==> '|' !in calls[i].request.host
  }

  lemma {:induction false} SplitKey(a: string, x: string, b: string, y: string)
    requires '|' !in x && '|' !in y && a + "|" + x == b + "|" + y
    ensures a == b && x == y
  {
    var s := a + "|" + x;
    assert s[|a|] == '|' && s[|b|] == '|';
    assert forall i :: |a| < i < |s| ==> s[i] == x[i - |a| - 1];
    assert forall i :: |b| < i < |s| ==> s[i] == y[i - |b| - 1];
    assert s[..|a|] == a && s[..|b|] == b;
    assert s[|a| + 1..] == x && s[|b| + 1..] == y;
  }

  // --- One host cannot use up another's tokens ---------------------------------------------

  function OfHost(calls: seq<Call>, host: string): (r: seq<Call>)
    ensures |r| <= |calls| && forall i :: 0 <= i < |r| ==> r[i] in calls && r[i].request.host == host
  {
    if calls == [] then []
    else
      var n := |calls| - 1;
      OfHost(calls[..n], host) + (if calls[n].request.host == host then [calls[n]] else [])
  }

  lemma HitsSnoc(rules: seq<Rule>, calls: seq<Call>, c: Call)
    requires Under(rules, calls) && c.rule < |rules|
    ensures Under(rules, calls + [c]) && Hits(rules, calls + [c]) == Hits(rules, calls) + [HitOf(rules, c)]
  {
  }

  lemma OtherHost(q: Rule, a: Request, p: Rule, b: Request)
    requires '|' !in a.host && '|' !in b.host && a.host != b.host
    ensures Key(q, a) != Key(p, b)
  {
    if Key(q, a) == Key(p, b) {
      SplitKey(if q.name == "" then a.verb + " " + a.path else q.name, a.host,
               if p.name == "" then b.verb + " " + b.path else p.name, b.host);
    }
  }

  // One more call changes the bucket alike in both runs, or in neither.
  lemma HostStep(rules: seq<Rule>, all: seq<Call>, own: seq<Call>, c: Call, key: string)
    requires Under(rules, all) && Under(rules, own) && c.rule < |rules|
    requires Get(After(Hits(rules, all)), key) == Get(After(Hits(rules, own)), key)
    ensures Under(rules, all + [c]) && Under(rules, own + [c])
    ensures Get(After(Hits(rules, all + [c])), key) == Get(After(Hits(rules, own + [c])), key)
    ensures HitOf(rules, c).key != key ==>
      Get(After(Hits(rules, all + [c])), key) == Get(After(Hits(rules, own)), key)
  {
    HitsSnoc(rules, all, c);
    HitsSnoc(rules, own, c);
    AfterStep(Hits(rules, all), HitOf(rules, c), key);
    AfterStep(Hits(rules, own), HitOf(rules, c), key);
  }

  lemma OfHostSnoc(calls: seq<Call>, c: Call, host: string)
    ensures OfHost(calls + [c], host) == if c.request.host ==
      host then OfHost(calls, host) + [c] else OfHost(calls, host)
  {
    assert (calls + [c])[..|calls|] == calls;
  }

  // In both runs the bucket of this key is the same.
  ghost predicate SameBucket(rules: seq<Rule>, all: seq<Call>, own: seq<Call>, key: string) {
    Under(rules, all) && Under(rules, own) && Get(After(Hits(rules, all)), key) == Get(After(Hits(rules, own)), key)
  }

  lemma HostSnoc(rules: seq<Rule>, front: seq<Call>, c: Call, rule: nat, r: Request)
    requires rule < |rules| && c.rule < |rules| && '|' !in r.host && '|' !in c.request.host
    requires SameBucket(rules, front, OfHost(front, r.host), Key(rules[rule], r))
    ensures SameBucket(rules, front + [c], OfHost(front + [c], r.host), Key(rules[rule], r))
  {
    HostStep(rules, front, OfHost(front, r.host), c, Key(rules[rule], r));
    OfHostSnoc(front, c, r.host);
    if c.request.host != r.host { OtherHost(rules[c.rule], c.request, rules[rule], r); }
  }

  lemma {:induction false} HostBucket(rules: seq<Rule>, calls: seq<Call>, rule: nat, r: Request)
    requires Under(rules, calls) && PlainHosts(calls) && rule < |rules| && '|' !in r.host
    ensures SameBucket(rules, calls, OfHost(calls, r.host), Key(rules[rule], r))
  {
    if calls != [] {
      var n := |calls| - 1;
      HostBucket(rules, calls[..n], rule, r);
      HostSnoc(rules, calls[..n], calls[n], rule, r);
      assert calls == calls[..n] + [calls[n]];
    }
  }

  lemma {:induction false} NoneOfHost(calls: seq<Call>, host: string)
    requires forall i :: 0 <= i < |calls| ==> calls[i].request.host != host
    ensures OfHost(calls, host) == []
  {
    if calls != [] { NoneOfHost(calls[..|calls| - 1], host); }
  }

  // Whatever the other hosts do, under any rules: a host gets the answers that it would get if it
  // were alone. So its first request is admitted.
  lemma {:induction false} HostsApart(rules: seq<Rule>, calls: seq<Call>, c: Call)
    requires Under(rules, calls) && c.rule < |rules| && PlainHosts(calls) && '|' !in c.request.host
    ensures var own := OfHost(calls, c.request.host);
            Under(rules, own) && Allows(rules, calls, c) == Allows(rules, own, c)
    ensures (forall i :: 0 <= i < |calls| ==> calls[i].request.host != c.request.host) ==> Allows(rules, calls, c)
  {
    HostBucket(rules, calls, c.rule, c.request);
    if forall i :: 0 <= i < |calls| ==> calls[i].request.host != c.request.host {
      NoneOfHost(calls, c.request.host);
      FirstAdmitted(rules[c.rule], c.now);
    }
  }

  // --- What one host gets under one rule ---------------------------------------------------

  // One when this call is of the host, under the rule, and admitted.
  function Counts(rules: seq<Rule>, calls: seq<Call>, rule: nat, host: string, i: nat): nat
    requires Under(rules, calls) && i < |calls|
  {
    if calls[i].request.host == host && calls[i].rule == rule && Allows(rules, calls[..i], calls[i]) then 1 else 0
  }

  function Count(rules: seq<Rule>, calls: seq<Call>, rule: nat, host: string, from: nat, until: nat): nat
    requires Under(rules, calls) && from <= until <= |calls|
  {
    Sum(seq<nat>(until - from, i requires 0 <= i < until - from => Counts(rules, calls, rule, host, from + i)))
  }

  predicate Named(rules: seq<Rule>) {
    && (forall i :: 0 <= i < |rules| ==> rules[i].name != "")
    && (forall i, j :: 0 <= i < j < |rules| ==> rules[i].name != rules[j].name)
  }

  // With distinct names, calls share a bucket exactly when they are of one host under one rule,
  // whatever their paths.
  lemma BucketIs(rules: seq<Rule>, c: Call, d: Call)
    requires Named(rules) && c.rule < |rules| && d.rule < |rules|
    requires '|' !in c.request.host && '|' !in d.request.host
    ensures HitOf(rules, c).key == HitOf(rules, d).key <==> c.request.host == d.request.host && c.rule == d.rule
  {
    if HitOf(rules, c).key == HitOf(rules, d).key {
      SplitKey(rules[c.rule].name, c.request.host, rules[d.rule].name, d.request.host);
    }
  }

  lemma CountsIs(rules: seq<Rule>, calls: seq<Call>, c: Call, i: nat)
    requires Named(rules) && Under(rules, calls) && PlainHosts(calls) && i < |calls|
    requires c.rule < |rules| && '|' !in c.request.host
    ensures Counts(rules, calls, c.rule, c.request.host, i) == Took(Hits(rules, calls), HitOf(rules, c).key, i)
  {
    BucketIs(rules, calls[i], c);
    assert Hits(rules, calls[..i]) == Hits(rules, calls)[..i];
  }

  lemma CountIs(rules: seq<Rule>, calls: seq<Call>, c: Call, from: nat, until: nat)
    requires Named(rules) && Under(rules, calls) && PlainHosts(calls) && from <= until <= |calls|
    requires c.rule < |rules| && '|' !in c.request.host
    ensures Count(rules, calls, c.rule, c.request.host, from, until) ==
            Admitted(Hits(rules, calls), HitOf(rules, c).key, from, until)
  {
    var hits, key := Hits(rules, calls), HitOf(rules, c).key;
    var counts := seq<nat>(until - from, i requires 0 <= i < until - from =>
                             Counts(rules, calls, c.rule, c.request.host, from + i));
    forall i | 0 <= i < until - from ensures counts[i] == TookFrom(hits, key, from, until)[i] {
      CountsIs(rules, calls, c, from + i);
    }
    assert counts == TookFrom(hits, key, from, until);
  }

  // So in every window of every run of a handler, one host is admitted under one rule at most
  // Burst times plus once per refill interval, whatever the paths it asks for.
  lemma HandlerBound(rules: seq<Rule>, calls: seq<Call>, from: nat, until: nat)
    requires Named(rules) && Under(rules, calls) && PlainHosts(calls) && from < until <= |calls|
    requires rules[calls[from].rule].burst >= 1
    ensures var c := calls[from];
            var rule, key, hits := rules[c.rule], HitOf(rules, c).key, Hits(rules, calls);
            var length := BucketAt(hits, key, until).last - BucketAt(hits, key, from + 1).last;
            && length >= 0
            && Count(rules, calls, c.rule, c.request.host, from, until) as real <=
               rule.burst as real + length as real / Refill(rule) as real
  {
    var c, hits := calls[from], Hits(rules, calls);
    var rule, key := rules[c.rule], HitOf(rules, c).key;
    forall i | 0 <= i < |hits| && hits[i].key == key ensures hits[i].rule == rule { BucketIs(rules, calls[i], c); }
    WindowBound(hits, key, rule.burst, Refill(rule), from, until);
    CountIs(rules, calls, c, from, until);
  }

  lemma DefaultRulesNamed()
    ensures Named(DEFAULT_RULES)
  {
    assert |DEFAULT_RULES[0].name| == 11 && |DEFAULT_RULES[1].name| == 20 && |DEFAULT_RULES[2].name| == 10;
  }

  // Whatever the names, no window exceeds the largest burst and the fastest refill of the rules.
  lemma AnyHandlerBound(rules: seq<Rule>, burst: int, refill: int, calls: seq<Call>, from: nat, until: nat)
    requires refill >= 1 && Under(rules, calls) && from < until <= |calls|
    requires forall k :: 0 <= k < |rules| ==> 1 <= rules[k].burst <= burst && Refill(rules[k]) >= refill
    ensures var hits, key := Hits(rules, calls), HitOf(rules, calls[from]).key;
            var length := BucketAt(hits, key, until).last - BucketAt(hits, key, from + 1).last;
            length >= 0 && Admitted(hits, key, from, until) as real <= burst as real + length as real / refill as real
  {
    WindowBound(Hits(rules, calls), HitOf(rules, calls[from]).key, burst, refill, from, until);
  }

  class Handler {
    const rules: seq<Rule>
    var buckets: map<string, Bucket>
    ghost var calls: seq<Call>

    ghost predicate Valid()
      reads this
    {
      Under(rules, calls) && buckets == After(Hits(rules, calls))
    }

    constructor (rules: seq<Rule>)
      ensures Valid() && this.rules == rules && calls == []
    {
      this.rules := rules;
      buckets := map[];
      calls := [];
    }

    // matchRule (60-79).
    method MatchRule(r: Request) returns (found: Option<nat>)
      ensures found.Some? ==> Best(rules, r, found.value)
      ensures found.Some? ==>
        var rule := rules[found.value];
        rule.verb in {"", r.verb} && |rule.prefix| <= |r.path| && r.path[..|rule.prefix|] == rule.prefix
      ensures forall j :: 0 <= j < |rules| ==>
        || rules[j].verb !in {"", r.verb} || |rules[j].prefix| > |r.path|
        || r.path[..|rules[j].prefix|] != rules[j].prefix
        || (found.Some? && (|rules[found.value].prefix| > |rules[j].prefix| ||
                            (|rules[found.value].prefix| == |rules[j].prefix| && found.value <= j)))
      ensures found.None? ==> forall j :: 0 <= j < |rules| ==> !Applies(rules[j], r)
    {
      found := None;
      for i := 0 to |rules|
        invariant found.Some? ==> found.value < i && Best(rules[..i], r, found.value)
        invariant found.None? ==> forall j :: 0 <= j < i ==> !Applies(rules[j], r)
      {
        if rules[i].verb != "" && rules[i].verb != r.verb { continue; }
        if rules[i].prefix != "" && !HasPrefix(r.path, rules[i].prefix) { continue; }
        if found.None? || |rules[i].prefix| > |rules[found.value].prefix| {
          found := Some(i);
        }
      }
      assert rules[..|rules|] == rules;
    }

    method Allow(k: nat, r: Request, now: nat) returns (ok: bool)
      requires Valid() && k < |rules|
      modifies this
      ensures Valid() && calls == old(calls) + [Call(r, k, now)]
      ensures ok == Allows(rules, old(calls), Call(r, k, now))
      ensures forall key :: key != Key(rules[k], r) ==> Get(buckets, key) == Get(old(buckets), key)
    {
      var rule := rules[k];
      var key := Key(rule, r);
      ghost var was := Hits(rules, calls);
      HitsSnoc(rules, calls, Call(r, k, now));
      assert (was + [Hit(rule, key, now)])[..|was|] == was;
      calls := calls + [Call(r, k, now)];
      if rule.burst <= 0 { return true; }
      var interval := if rule.refillInterval <= 0 then SECOND else rule.refillInterval;
      if key !in buckets {
        buckets := buckets[key := Bucket((rule.burst - 1) as real, now)];
        return true;
      }
      var bucket := buckets[key];
      if bucket.last == 0 { bucket := bucket.(last := now); }
      var elapsed := now - bucket.last;
      if elapsed > 0 {
        var refill := elapsed as real / interval as real;
        if refill > 0.0 { bucket := bucket.(tokens := Min(rule.burst as real, bucket.tokens + refill)); }
        else { Quotient(elapsed as real, interval as real); PositiveQuotient(elapsed as real, interval as real); }
        bucket := bucket.(last := now);
      }
      if bucket.tokens < 1.0 {
        buckets := buckets[key := bucket];
        return false;
      }
      buckets := buckets[key := bucket.(tokens := bucket.tokens - 1.0)];
      return true;
    }

    // The answer to a request under rule k, which is one more call.
    ghost predicate Answered(before: seq<Call>, r: Request, k: nat, now: nat, response: Response)
      reads this
    {
      && k < |rules| && Under(rules, before) && calls == before + [Call(r, k, now)]
      && response == if Allows(rules, before, Call(r, k, now)) then Served else TooManyRequests(Advertised(rules[k]))
    }

    // ServeHTTP (44-58).
    method ServeHTTP(r: Request, now: nat) returns (response: Response)
      requires Valid()
      modifies this
      ensures Valid()
      ensures (forall j :: 0 <= j < |rules| ==> !Applies(rules[j], r)) ==> response == Served && calls == old(calls)
      ensures forall k: nat :: Best(rules, r, k) ==> Answered(old(calls), r, k, now, response)
    {
      var found := MatchRule(r);
      if found.None? { return Served; }
      forall k: nat | Best(rules, r, k) ensures k == found.value { OneBest(rules, r, k, found.value); }
      var rule := rules[found.value];
      var ok := Allow(found.value, r, now);
      if ok { return Served; }
      var retryAfter := rule.retryAfter;
      if retryAfter <= 0 { retryAfter := SECOND; }
      var seconds := (retryAfter + SECOND - 1) / SECOND;
      if seconds < 1 { seconds := 1; }
      return TooManyRequests(seconds);
    }
  }

  lemma OneBest(rules: seq<Rule>, r: Request, j: nat, k: nat)
    requires Best(rules, r, j) && Best(rules, r, k)
    ensures j == k
  {
  }

  lemma PositiveQuotient(x: real, d: real)
    requires x > 0.0 && d > 0.0
    ensures x / d > 0.0
  {
  }
}
