/** Choosing among the endpoint candidates of a peer by measured latency. */
module EndpointPick {
  import opened Wrappers
  import opened Text

  datatype Measurement = Measurement(address: string, reachable: bool, latency: real)

  datatype Opts = Opts(thresholdMs: int, marginPct: int)

  const DEFAULT_THRESHOLD_MS := 150
  const DEFAULT_MARGIN_PCT := 30

  // ---------------------------------------------------------------------
  // The candidate list
  // ---------------------------------------------------------------------

  /** The candidates trimmed, the empty and the repeated ones left out. */
  function Normalized(candidates: seq<string>): seq<string> {
    if candidates == [] then []
    else
      var before, v := Normalized(candidates[..|candidates| - 1]), Trim(candidates[|candidates| - 1]);
      if v == "" || v in before then before else before + [v]
  }

  method Normalize(candidates: seq<string>) returns (out: seq<string>)
    ensures out == Normalized(candidates)
  {
    out := [];
    var seen := {};
    for n := 0 to |candidates|
      invariant out == Normalized(candidates[..n]) && forall v :: v in seen <==> v in out
    {
      assert candidates[..n + 1][..n] == candidates[..n];
      var v := Trim(candidates[n]);
      if v == "" || v in seen {
        continue;
      }
      seen := seen + {v};
      out := out + [v];
    }
    assert candidates[..|candidates|] == candidates;
  }

  /** Trimmed, not empty, without repetitions. */
  ghost predicate IsNormal(candidates: seq<string>) {
    && (forall i :: 0 <= i < |candidates| ==> candidates[i] != "" && Trimmed(candidates[i]))
    && (forall i, j :: 0 <= i < j < |candidates| ==> candidates[i] != candidates[j])
  }

  lemma {:induction false} NormalizedIsNormal(candidates: seq<string>)
    ensures IsNormal(Normalized(candidates))
    decreases |candidates|
  {
    if candidates != [] {
      NormalizedIsNormal(candidates[..|candidates| - 1]);
      TrimIsTrimmed(candidates[|candidates| - 1]);
    }
  }

  /** Nothing is lost, and what comes first stays first. */
  lemma {:induction false} NormalizedHas(candidates: seq<string>, v: string)
    ensures v in Normalized(candidates) <==> v != "" && exists c :: c in candidates && Trim(c) == v
    decreases |candidates|
  {
    if candidates != [] {
      var before, last := candidates[..|candidates| - 1], candidates[|candidates| - 1];
      NormalizedHas(before, v);
      InitAndLast(candidates);
      assert forall c :: c in candidates <==> c in before || c == last;
    }
  }

  lemma {:induction false} NormalizedInOrder(a: seq<string>, b: seq<string>)
    ensures Normalized(a) <= Normalized(a + b)
    decreases |b|
  {
    if b == [] {
      assert a + b == a;
    } else {
      NormalizedInOrder(a, b[..|b| - 1]);
      assert (a + b)[..|a + b| - 1] == a + b[..|b| - 1];
    }
  }

  /** A normal list is left as it is. */
  lemma {:induction false} NormalStays(candidates: seq<string>)
    requires IsNormal(candidates)
    ensures Normalized(candidates) == candidates
    decreases |candidates|
  {
    if candidates != [] {
      var n := |candidates| - 1;
      NormalStays(candidates[..n]);
      TrimmedStays(candidates[n]);
      InitAndLast(candidates);
    }
  }

  // ---------------------------------------------------------------------
  // The best measurement
  // ---------------------------------------------------------------------

  predicate Usable(m: Measurement) { m.reachable && m.latency > 0.0 }

  /** The address and latency that a scan for the lowest latency holds. */
  function BestSoFar(ms: seq<Measurement>): (string, real) {
    if ms == [] then ("", 0.0)
    else
      var best, m := BestSoFar(ms[..|ms| - 1]), ms[|ms| - 1];
      if Usable(m) && (best.0 == "" || m.latency < best.1) then (m.address, m.latency) else best
  }

  function BestOf(ms: seq<Measurement>): string { BestSoFar(ms).0 }

  method Best(ms: seq<Measurement>) returns (best: string)
    ensures best == BestOf(ms)
  {
    best := "";
    var bestLatency := 0.0;
    for n := 0 to |ms|
      invariant (best, bestLatency) == BestSoFar(ms[..n])
    {
      var m := ms[n];
      assert ms[..n + 1][..n] == ms[..n];
      if !m.reachable || m.latency <= 0.0 {
        continue;
      }
      if best == "" || m.latency < bestLatency {
        best, bestLatency := m.address, m.latency;
      }
    }
    assert ms[..|ms|] == ms;
  }

  /** Measurements at distinct addresses. */
  ghost predicate DistinctAddresses(ms: seq<Measurement>) {
    && (forall i :: 0 <= i < |ms| ==> ms[i].address != "")
    && (forall i, j :: 0 <= i < j < |ms| ==> ms[i].address != ms[j].address)
  }

  function AddressesOf(ms: seq<Measurement>): seq<string> {
    seq(|ms|, i requires 0 <= i < |ms| => ms[i].address)
  }

  /** It was reached, in a time that is one. */
  predicate Answers(m: Measurement) { m.reachable && 0.0 < m.latency }

  /** The first of the lowest latency among the answers at an address other than `but`. */
  ghost predicate IsLowest(ms: seq<Measurement>, but: string, i: nat) {
    && i < |ms| && Answers(ms[i]) && ms[i].address != but
    && forall j :: 0 <= j < |ms| && Answers(ms[j]) && ms[j].address != but ==>
         ms[i].latency <= ms[j].latency && (j < i ==> ms[i].latency < ms[j].latency)
  }

  ghost predicate NoneAnswers(ms: seq<Measurement>, but: string) {
    forall j :: 0 <= j < |ms| && ms[j].address != but ==> !Answers(ms[j])
  }

  lemma {:induction false} BestIsLowest(ms: seq<Measurement>) returns (i: nat)
    requires forall j :: 0 <= j < |ms| ==> ms[j].address != ""
    ensures BestOf(ms) == "" <==> NoneAnswers(ms, "")
    ensures BestOf(ms) != "" ==> IsLowest(ms, "", i) && BestSoFar(ms) == (ms[i].address, ms[i].latency)
    decreases |ms|
  {
    if ms == [] {
      i := 0;
    } else {
      var n := |ms| - 1;
      i := BestIsLowest(ms[..n]);
      var best := BestSoFar(ms[..n]);
      if Answers(ms[n]) && (best.0 == "" || ms[n].latency < best.1) {
        if best.0 == "" {
          assert forall j :: 0 <= j < n ==> ms[..n][j] == ms[j] && !Answers(ms[j]);
        } else {
          assert forall j :: 0 <= j < n && Answers(ms[j]) ==> ms[..n][j] == ms[j] && best.1 <= ms[j].latency;
        }
        i := n;
      } else {
        assert forall j :: 0 <= j < n ==> ms[..n][j] == ms[j];
      }
    }
  }

  /** Best is the usable candidate of the lowest latency, the first of equals. */
  lemma BestIsFirstLowest(ms: seq<Measurement>, i: nat)
    requires forall j :: 0 <= j < |ms| ==> ms[j].address != ""
    requires IsLowest(ms, "", i)
    ensures BestOf(ms) == ms[i].address
  {
    var k := BestIsLowest(ms);
  }

  // ---------------------------------------------------------------------
  // A better one
  // ---------------------------------------------------------------------

  function Threshold(opts: Opts): int { if opts.thresholdMs < 1 then DEFAULT_THRESHOLD_MS else opts.thresholdMs }

  function Margin(opts: Opts): int { if opts.marginPct < 1 then DEFAULT_MARGIN_PCT else opts.marginPct }

  /** The last measurement at an address. */
  function MeasuredAt(ms: seq<Measurement>, address: string): Option<Measurement> {
    if ms == [] then None
    else if ms[|ms| - 1].address == address then Some(ms[|ms| - 1])
    else MeasuredAt(ms[..|ms| - 1], address)
  }

  /** The fallback that a scan of the other addresses holds. */
  function Fallback(ms: seq<Measurement>, current: string): Option<Measurement> {
    if ms == [] then None
    else
      var fallback, m := Fallback(ms[..|ms| - 1], current), ms[|ms| - 1];
      if m.address != current && Usable(m) && (fallback.None? || m.latency < fallback.value.latency) then Some(m) else fallback
  }

  /** What a latency must be below to be the better one by the margin. */
  function Bound(latency: real, opts: Opts): (bound: real)
    requires latency > 0.0
    ensures bound < latency
  {
    MarginLowers(latency, Margin(opts));
    latency * (1.0 - Margin(opts) as real / 100.0)
  }

  lemma MarginLowers(latency: real, margin: int)
    requires latency > 0.0 && margin >= 1
    ensures latency * (1.0 - margin as real / 100.0) < latency
  {
    assert latency * (margin as real / 100.0) > 0.0;
    assert latency * (1.0 - margin as real / 100.0) == latency - latency * (margin as real / 100.0);
  }

  /** What replaces the current address, and whether because that is down. */
  function BetterOf(ms: seq<Measurement>, current: string, opts: Opts): (string, bool) {
    var address := Trim(current);
    var now, fallback := MeasuredAt(ms, address), Fallback(ms, address);
    if fallback.None? then ("", false)
    else if now.None? || !Usable(now.value) then (fallback.value.address, true)
    else if now.value.latency < Threshold(opts) as real then ("", false)
    else if fallback.value.latency >= Bound(now.value.latency, opts) then ("", false)
    else (fallback.value.address, false)
  }

  method Better(ms: seq<Measurement>, current: string, opts: Opts) returns (address: string, failover: bool)
    ensures (address, failover) == BetterOf(ms, current, opts)
  {
    var threshold := opts.thresholdMs;
    if threshold < 1 {
      threshold := DEFAULT_THRESHOLD_MS;
    }
    var margin := opts.marginPct;
    if margin < 1 {
      margin := DEFAULT_MARGIN_PCT;
    }
    var trimmed := Trim(current);
    var currentMs: Option<Measurement>, fallback: Option<Measurement> := None, None;
    for i := 0 to |ms|
      invariant currentMs == MeasuredAt(ms[..i], trimmed) && fallback == Fallback(ms[..i], trimmed)
    {
      assert ms[..i + 1][..i] == ms[..i];
      if ms[i].address == trimmed {
        currentMs := Some(ms[i]);
      } else if ms[i].reachable && ms[i].latency > 0.0 && (fallback.None? || ms[i].latency < fallback.value.latency) {
        fallback := Some(ms[i]);
      }
    }
    assert ms[..|ms|] == ms;
    if fallback.None? {
      return "", false;
    }
    if currentMs.None? || !currentMs.value.reachable || currentMs.value.latency <= 0.0 {
      return fallback.value.address, true;
    }
    if currentMs.value.latency < threshold as real {
      return "", false;
    }
    if fallback.value.latency >= currentMs.value.latency * (1.0 - margin as real / 100.0) {
      return "", false;
    }
    return fallback.value.address, false;
  }

  lemma {:induction false} FallbackIsLowest(ms: seq<Measurement>, but: string) returns (i: nat)
    ensures Fallback(ms, but).None? <==> NoneAnswers(ms, but)
    ensures Fallback(ms, but).Some? ==> IsLowest(ms, but, i) && Fallback(ms, but) == Some(ms[i])
    decreases |ms|
  {
    if ms == [] {
      i := 0;
    } else {
      var n := |ms| - 1;
      i := FallbackIsLowest(ms[..n], but);
      var fallback := Fallback(ms[..n], but);
      if ms[n].address != but && Answers(ms[n]) && (fallback.None? || ms[n].latency < fallback.value.latency) {
        if fallback.None? {
          assert forall j :: 0 <= j < n && ms[j].address != but ==> ms[..n][j] == ms[j] && !Answers(ms[j]);
        } else {
          assert forall j :: 0 <= j < n && ms[j].address != but && Answers(ms[j]) ==>
              ms[..n][j] == ms[j] && fallback.value.latency <= ms[j].latency;
        }
        i := n;
      } else {
        assert forall j :: 0 <= j < n ==> ms[..n][j] == ms[j];
      }
    }
  }

  lemma {:induction false} MeasuredIsThere(ms: seq<Measurement>, address: string) returns (i: nat)
    ensures MeasuredAt(ms, address).None? <==> forall j :: 0 <= j < |ms| ==> ms[j].address != address
    ensures MeasuredAt(ms, address).Some? ==> i < |ms| && ms[i].address == address && MeasuredAt(ms, address) == Some(ms[i])
    decreases |ms|
  {
    i := 0;
    if ms != [] {
      var n := |ms| - 1;
      if ms[n].address == address {
        i := n;
      } else {
        i := MeasuredIsThere(ms[..n], address);
        assert forall j :: 0 <= j < n ==> ms[..n][j] == ms[j];
      }
    }
  }

  /** The lowest of all is the lowest but one when that one is not lower. */
  lemma LowestOfAll(ms: seq<Measurement>, but: string, i: nat)
    requires DistinctAddresses(ms) && IsLowest(ms, but, i)
    requires forall j :: 0 <= j < |ms| && Answers(ms[j]) && ms[j].address == but ==> ms[i].latency < ms[j].latency
    ensures IsLowest(ms, "", i)
  {
  }

  /** Better keeps the current address or gives exactly the best one; it calls
      that a failover when the current address has no usable measurement. */
  lemma BetterIsNothingOrBest(ms: seq<Measurement>, current: string, opts: Opts)
    requires DistinctAddresses(ms)
    ensures var (address, failover) := BetterOf(ms, current, opts);
            && (address == "" || address == BestOf(ms))
            && (failover ==> address != "" && forall j :: 0 <= j < |ms| && Answers(ms[j]) ==> ms[j].address != Trim(current))
  {
    var trimmed := Trim(current);
    var i := FallbackIsLowest(ms, trimmed);
    var k := MeasuredIsThere(ms, trimmed);
    if BetterOf(ms, current, opts).0 != "" {
      LowestOfAll(ms, trimmed, i);
      BestIsFirstLowest(ms, i);
    }
  }

  /** No usable measurement at an address. */
  ghost predicate Down(ms: seq<Measurement>, address: string) {
    forall j :: 0 <= j < |ms| && Answers(ms[j]) ==> ms[j].address != address
  }

  /** Worth a switch between two that answer: the one is slow, the other faster by the margin. */
  predicate Improves(m: Measurement, now: Measurement, opts: Opts)
    requires Answers(now)
  {
    var threshold := if opts.thresholdMs >= 1 then opts.thresholdMs else 150;
    var margin := if opts.marginPct >= 1 then opts.marginPct else 30;
    now.latency >= threshold as real && m.latency < now.latency - now.latency * (margin as real / 100.0)
  }

  ghost predicate Replaces(ms: seq<Measurement>, j: nat, current: string, opts: Opts) {
    && j < |ms| && Answers(ms[j]) && ms[j].address != current
    && forall k :: 0 <= k < |ms| && Answers(ms[k]) && ms[k].address == current ==> Improves(ms[j], ms[k], opts)
  }

  /** Better switches exactly when some other candidate answers and the current
      one is down, or too slow and slower by the margin; the first is a failover. */
  lemma BetterSwitchesExactlyWhen(ms: seq<Measurement>, current: string, opts: Opts)
    requires DistinctAddresses(ms)
    ensures BetterOf(ms, current, opts).0 != "" <==> exists j: nat :: Replaces(ms, j, Trim(current), opts)
    ensures BetterOf(ms, current, opts).1 <==> BetterOf(ms, current, opts).0 != "" && Down(ms, Trim(current))
  {
    var trimmed := Trim(current);
    var i := FallbackIsLowest(ms, trimmed);
    var k := MeasuredIsThere(ms, trimmed);
    if BetterOf(ms, current, opts).0 != "" {
      assert Replaces(ms, i, trimmed, opts);
    }
    if exists j: nat :: Replaces(ms, j, trimmed, opts) {
      var j: nat :| Replaces(ms, j, trimmed, opts);
      assert !NoneAnswers(ms, trimmed);
      assert ms[i].latency <= ms[j].latency;
    }
  }

  /** At its own address the lowest of all is not replaced. */
  lemma LowestIsKept(ms: seq<Measurement>, i: nat, opts: Opts)
    requires DistinctAddresses(ms) && IsLowest(ms, "", i)
    ensures forall j: nat :: !Replaces(ms, j, ms[i].address, opts)
  {
  }

  /** The choice does not flap: after switching, the same measurements keep it,
      unless trimming makes it another address and something replaces that. */
  lemma BetterStaysExactlyWhen(ms: seq<Measurement>, current: string, opts: Opts)
    requires DistinctAddresses(ms) && BetterOf(ms, current, opts).0 != ""
    ensures var a := BetterOf(ms, current, opts).0;
            BetterOf(ms, a, opts) == ("", false) <==> Trimmed(a) || !exists j: nat :: Replaces(ms, j, Trim(a), opts)
  {
    var a := BetterOf(ms, current, opts).0;
    BetterIsNothingOrBest(ms, current, opts);
    BetterSwitchesExactlyWhen(ms, a, opts);
    var i := BestIsLowest(ms);
    LowestIsKept(ms, i, opts);
    if Trimmed(a) {
      TrimmedStays(a);
    }
  }

  /** With measurements of a normal candidate list the choice never flaps. */
  lemma BetterThenStays(ms: seq<Measurement>, current: string, opts: Opts)
    requires IsNormal(AddressesOf(ms)) && BetterOf(ms, current, opts).0 != ""
    ensures BetterOf(ms, BetterOf(ms, current, opts).0, opts) == ("", false)
  {
    var addresses := AddressesOf(ms);
    forall i | 0 <= i < |ms| ensures ms[i].address != "" && Trimmed(ms[i].address) {
      assert addresses[i] == ms[i].address;
    }
    forall i, j | 0 <= i < j < |ms| ensures ms[i].address != ms[j].address {
      assert addresses[i] != addresses[j];
    }
    BetterIsNothingOrBest(ms, current, opts);
    var i := BestIsLowest(ms);
    BetterStaysExactlyWhen(ms, current, opts);
  }
}
