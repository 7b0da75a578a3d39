/**
 * The four metric definitions of the evaluator (`MetricDefinitions`):
 * action distribution, guard trigger rates, safety pass rate and
 * nearest-rank latency percentiles.
 *
 * `guard_trigger_rate` and `safety_invariant_pass_rate` are loops that update
 * counters; they are methods here, each proved equal to a specification
 * function (`GuardRates`, `SafetyRate`) that the rest of the model uses.
 * The other two are expressions and are functions.
 */
module MetricDefinitions {
  import opened Wrappers
  import opened Packets
  import opened Sorting

  // ---------------------------------------------------------------------------
  // Counting: `collections.Counter` over a list of strings
  // ---------------------------------------------------------------------------

  /** Number of positions of `cs` that hold `c`. */
  function Occurrences(cs: seq<string>, c: string): (n: nat)
    ensures n > 0 <==> c in cs
    ensures n <= |cs|
  {
    if cs == [] then 0
    else
      assert cs == cs[..|cs| - 1] + [cs[|cs| - 1]];
      Occurrences(cs[..|cs| - 1], c) + (if cs[|cs| - 1] == c then 1 else 0)
  }

  lemma {:induction false} OccurrencesAppend(a: seq<string>, b: seq<string>, c: string)
    ensures Occurrences(a + b, c) == Occurrences(a, c) + Occurrences(b, c)
    decreases |b|
  {
    if b != [] {
      assert (a + b)[..|a + b| - 1] == a + b[..|b| - 1];
      OccurrencesAppend(a, b[..|b| - 1], c);
    } else {
      assert a + b == a;
    }
  }

  predicate NoDuplicates(s: seq<string>)
  {
    forall i, j :: 0 <= i < j < |s| ==> s[i] != s[j]
  }

  lemma {:induction false} OccurrencesNoDuplicates(cs: seq<string>, c: string)
    requires NoDuplicates(cs)
    ensures Occurrences(cs, c) <= 1
  {
    if cs != [] {
      var init := cs[..|cs| - 1];
      assert NoDuplicates(init);
      OccurrencesNoDuplicates(init, c);
      if cs[|cs| - 1] == c {
        assert c !in init;
      }
    }
  }

  /**
   * `Counter(cs)`: one increment per position of `cs`, front to back, with a
   * missing key counting as 0.
   */
  function Tally(cs: seq<string>): map<string, nat>
  {
    if cs == [] then map[]
    else
      var counts := Tally(cs[..|cs| - 1]);
      var c := cs[|cs| - 1];
      counts[c := CountOf(counts, c) + 1]
  }

  /** The keys of `Tally(cs)` are exactly the elements of `cs`, each counted as often as it occurs. */
  lemma {:induction false} TallyCounts(cs: seq<string>)
    ensures forall c :: c in Tally(cs) <==> c in cs
    ensures forall c :: c in Tally(cs) ==> Tally(cs)[c] == Occurrences(cs, c)
  {
    if cs != [] {
      var init := cs[..|cs| - 1];
      TallyCounts(init);
      assert cs == init + [cs[|cs| - 1]];
    }
  }

  /** One more element: its count goes up by one, every other count is unchanged. */
  lemma {:induction false} TallySnoc(cs: seq<string>, c: string)
    ensures Tally(cs + [c]) == Tally(cs)[c := CountOf(Tally(cs), c) + 1]
  {
    assert (cs + [c])[..|cs|] == cs;
  }

  /** The distinct elements of `cs` in order of first occurrence (the key order of a Counter). */
  function Distinct(cs: seq<string>): seq<string>
  {
    if cs == [] then []
    else
      var d := Distinct(cs[..|cs| - 1]);
      if cs[|cs| - 1] in d then d else d + [cs[|cs| - 1]]
  }

  /** `Distinct(cs)` lists each element of `cs` once and nothing else. */
  lemma {:induction false} DistinctMembers(cs: seq<string>)
    ensures forall c :: c in Distinct(cs) <==> c in cs
    ensures NoDuplicates(Distinct(cs))
  {
    if cs != [] {
      var init := cs[..|cs| - 1];
      DistinctMembers(init);
      assert cs == init + [cs[|cs| - 1]];
    }
  }

  /** A Counter lookup: a missing key counts as 0. */
  function CountOf(counts: map<string, nat>, k: string): nat
  {
    if k in counts then counts[k] else 0
  }

  /** The sum of `counts` over the keys `keys`. */
  function SumOver(keys: seq<string>, counts: map<string, nat>): nat
  {
    if keys == [] then 0
    else SumOver(keys[..|keys| - 1], counts) + CountOf(counts, keys[|keys| - 1])
  }

  /** Changing the count of one key changes the sum only if that key is summed over. */
  lemma {:induction false} SumOverUpdate(keys: seq<string>, counts: map<string, nat>, x: string, v: nat)
    requires NoDuplicates(keys)
    ensures SumOver(keys, counts[x := v])
         == if x in keys then SumOver(keys, counts) - CountOf(counts, x) + v else SumOver(keys, counts)
  {
    if keys != [] {
      PrefixFacts(keys);
      SumOverUpdate(keys[..|keys| - 1], counts, x, v);
    }
  }

  /** Dropping the last key keeps the keys distinct and leaves out the last key. */
  lemma {:induction false} PrefixFacts(keys: seq<string>)
    requires keys != [] && NoDuplicates(keys)
    ensures NoDuplicates(keys[..|keys| - 1])
    ensures forall k :: k in keys[..|keys| - 1] ==> k in keys
    ensures keys[|keys| - 1] !in keys[..|keys| - 1]
  {
    var n := |keys| - 1;
    var init := keys[..n];
    forall i | 0 <= i < n
      ensures init[i] != keys[n]
    {
      assert init[i] == keys[i];
    }
  }

  /** Summing over one more key adds that key's count. */
  lemma {:induction false} SumOverSnoc(keys: seq<string>, counts: map<string, nat>, x: string)
    ensures SumOver(keys + [x], counts) == SumOver(keys, counts) + CountOf(counts, x)
  {
    assert (keys + [x])[..|keys|] == keys;
  }

  /** Counting a non-empty list: count all but the last element, then increment the last. */
  lemma {:induction false} TallyLast(cs: seq<string>)
    requires cs != []
    ensures Tally(cs) == Tally(cs[..|cs| - 1])[cs[|cs| - 1] := CountOf(Tally(cs[..|cs| - 1]), cs[|cs| - 1]) + 1]
  {
  }

  /** The distinct elements of a non-empty list gain its last element exactly when it is new. */
  lemma {:induction false} DistinctLast(cs: seq<string>)
    requires cs != []
    ensures var d := Distinct(cs[..|cs| - 1]);
      Distinct(cs) == if cs[|cs| - 1] in d then d else d + [cs[|cs| - 1]]
  {
  }

  /** Adding one occurrence of `x` to counts over distinct keys raises their sum by one. */
  lemma {:induction false} SumOverIncrement(d: seq<string>, t: map<string, nat>, x: string)
    requires NoDuplicates(d)
    requires x in t ==> x in d
    ensures SumOver(if x in d then d else d + [x], t[x := CountOf(t, x) + 1]) == SumOver(d, t) + 1
  {
    SumOverUpdate(d, t, x, CountOf(t, x) + 1);
    if x !in d {
      SumOverSnoc(d, t[x := CountOf(t, x) + 1], x);
    }
  }

  /** The step of `TallySum`: counting one more element raises the sum by one. */
  lemma {:induction false} TallySumStep(cs: seq<string>)
    requires cs != []
    ensures SumOver(Distinct(cs), Tally(cs)) == SumOver(Distinct(cs[..|cs| - 1]), Tally(cs[..|cs| - 1])) + 1
  {
    TallyLast(cs);
    DistinctLast(cs);
    TallyCounts(cs[..|cs| - 1]);
    DistinctMembers(cs[..|cs| - 1]);
    SumOverIncrement(Distinct(cs[..|cs| - 1]), Tally(cs[..|cs| - 1]), cs[|cs| - 1]);
  }

  /** The counts of a Counter add up to the length of the list it counted. */
  lemma {:induction false} TallySum(cs: seq<string>)
    ensures SumOver(Distinct(cs), Tally(cs)) == |cs|
  {
    if cs != [] {
      TallySum(cs[..|cs| - 1]);
      TallySumStep(cs);
    }
  }

  // ---------------------------------------------------------------------------
  // action_distribution
  // ---------------------------------------------------------------------------

  /** `p.final_action.get("action", "UNKNOWN")`: the bucket a packet is counted in. */
  function ActionKey(p: Packet): string
  {
    p.finalAction.action.GetOr("UNKNOWN")
  }

  /** The list comprehension of action keys, one per packet, in packet order. */
  function ActionKeys(ps: seq<Packet>): (keys: seq<string>)
    ensures |keys| == |ps|
    ensures forall i :: 0 <= i < |ps| ==> keys[i] == ActionKey(ps[i])
  {
    seq(|ps|, i requires 0 <= i < |ps| => ActionKey(ps[i]))
  }

  /** `dict(Counter(actions))`. */
  function ActionDistribution(ps: seq<Packet>): map<string, nat>
  {
    Tally(ActionKeys(ps))
  }

  /**
   * The distribution has a key for exactly the action keys that occur, and
   * counts for each key the packets in that bucket.
   */
  lemma {:induction false} ActionDistributionCounts(ps: seq<Packet>)
    ensures forall a :: a in ActionDistribution(ps) <==> exists i :: 0 <= i < |ps| && ActionKey(ps[i]) == a
    ensures forall a :: a in ActionDistribution(ps) ==> ActionDistribution(ps)[a] == Occurrences(ActionKeys(ps), a)
  {
    var keys := ActionKeys(ps);
    TallyCounts(keys);
    forall a | a in keys ensures exists i :: 0 <= i < |ps| && ActionKey(ps[i]) == a {
      var i :| 0 <= i < |keys| && keys[i] == a;
    }
  }

  /** The counts, summed once over each key of the distribution, equal the number of packets. */
  lemma {:induction false} ActionDistributionSum(ps: seq<Packet>)
    ensures forall a :: a in Distinct(ActionKeys(ps)) <==> a in ActionDistribution(ps)
    ensures NoDuplicates(Distinct(ActionKeys(ps)))
    ensures SumOver(Distinct(ActionKeys(ps)), ActionDistribution(ps)) == |ps|
  {
    TallySum(ActionKeys(ps));
    TallyCounts(ActionKeys(ps));
    DistinctMembers(ActionKeys(ps));
  }

  /** A packet without an `action` key is counted under "UNKNOWN". */
  lemma {:induction false} MissingActionCountedAsUnknown(ps: seq<Packet>, i: int)
    requires 0 <= i < |ps| && ps[i].finalAction.action.None?
    ensures "UNKNOWN" in ActionDistribution(ps) && ActionDistribution(ps)["UNKNOWN"] >= 1
  {
    assert ActionKeys(ps)[i] == "UNKNOWN";
    TallyCounts(ActionKeys(ps));
  }

  // ---------------------------------------------------------------------------
  // guard_trigger_rate
  // ---------------------------------------------------------------------------

  /**
   * The reason codes a packet contributes: none when it has no mismatch,
   * otherwise `mismatch.get("reason_codes", [])`. (The source tests the
   * mismatch for truthiness; an empty mismatch has no reason codes either, so
   * testing for presence gives the same counts.)
   */
  function CodesOf(p: Packet): seq<string>
  {
    if p.mismatch.Some? then ReasonCodes(p.mismatch.value) else []
  }

  /** Every reason code listed, packet by packet, in the order the loop visits them. */
  function AllCodes(ps: seq<Packet>): seq<string>
  {
    if ps == [] then []
    else AllCodes(ps[..|ps| - 1]) + CodesOf(ps[|ps| - 1])
  }

  lemma {:induction false} AllCodesPrefix(ps: seq<Packet>, i: int)
    requires 0 <= i < |ps|
    ensures AllCodes(ps[..i + 1]) == AllCodes(ps[..i]) + CodesOf(ps[i])
  {
    assert ps[..i + 1][..i] == ps[..i];
  }

  /** A code is listed in the whole trace iff some packet lists it. */
  lemma {:induction false} AllCodesMembers(ps: seq<Packet>, c: string)
    ensures c in AllCodes(ps) <==> exists i :: 0 <= i < |ps| && c in CodesOf(ps[i])
  {
    if ps != [] {
      var init := ps[..|ps| - 1];
      AllCodesMembers(init, c);
      if c in AllCodes(init) {
        var i :| 0 <= i < |init| && c in CodesOf(init[i]);
        assert ps[i] == init[i];
      }
      if exists i :: 0 <= i < |ps| && c in CodesOf(ps[i]) {
        var i :| 0 <= i < |ps| && c in CodesOf(ps[i]);
        if i < |init| {
          assert init[i] == ps[i];
        }
      }
    }
  }

  /** No packet lists more listings of a code than one. */
  lemma {:induction false} AllCodesBound(ps: seq<Packet>, c: string)
    requires forall i :: 0 <= i < |ps| ==> NoDuplicates(CodesOf(ps[i]))
    ensures Occurrences(AllCodes(ps), c) <= |ps|
  {
    if ps != [] {
      var init := ps[..|ps| - 1];
      AllCodesBound(init, c);
      OccurrencesAppend(AllCodes(init), CodesOf(ps[|ps| - 1]), c);
      OccurrencesNoDuplicates(CodesOf(ps[|ps| - 1]), c);
    }
  }

  /** The specification of `guard_trigger_rate`: trigger count over the number of packets. */
  function GuardRates(ps: seq<Packet>): map<string, real>
  {
    if |ps| == 0 then map[]
    else
      var counts := Tally(AllCodes(ps));
      map c | c in counts :: counts[c] as real / |ps| as real
  }

  /** Extending a prefix of `codes` by its next element. */
  lemma {:induction false} ConcatPrefixSnoc(seen: seq<string>, codes: seq<string>, j: int)
    requires 0 <= j < |codes|
    ensures seen + codes[..j + 1] == (seen + codes[..j]) + [codes[j]]
  {
    assert codes[..j + 1] == codes[..j] + [codes[j]];
  }

  /** The inner loop of `guard_trigger_rate`: one increment per listed code. */
  method CountReasonCodes(counts: map<string, nat>, reasonCodes: seq<string>, ghost seen: seq<string>)
    returns (updated: map<string, nat>)
    requires counts == Tally(seen)
    ensures updated == Tally(seen + reasonCodes)
  {
    updated := counts;
    var j := 0;
    ghost var counted := seen;
    assert seen + reasonCodes[..0] == seen;
    while j < |reasonCodes|
      invariant 0 <= j <= |reasonCodes|
      invariant counted == seen + reasonCodes[..j]
      invariant updated == Tally(counted)
    {
      var code := reasonCodes[j];
      ConcatPrefixSnoc(seen, reasonCodes, j);
      TallySnoc(counted, code);
      updated := updated[code := CountOf(updated, code) + 1];
      counted := counted + [code];
      j := j + 1;
    }
    assert reasonCodes[..j] == reasonCodes;
  }

  /**
   * `guard_trigger_rate`: an empty map for no packets; otherwise a counter
   * incremented once per listed reason code, then divided by the packet count.
   */
  method GuardTriggerRate(packets: seq<Packet>) returns (rates: map<string, real>)
    ensures rates == GuardRates(packets)
  {
    var totalSteps := |packets|;
    if totalSteps == 0 {
      return map[];
    }
    var triggerCounts: map<string, nat> := map[];
    var i := 0;
    while i < totalSteps
      invariant 0 <= i <= totalSteps
      invariant triggerCounts == Tally(AllCodes(packets[..i]))
    {
      var packet := packets[i];
      ghost var seen := AllCodes(packets[..i]);
      AllCodesPrefix(packets, i);
      if packet.mismatch.Some? {
        triggerCounts := CountReasonCodes(triggerCounts, ReasonCodes(packet.mismatch.value), seen);
      } else {
        assert seen + CodesOf(packet) == seen;
      }
      i := i + 1;
    }
    assert packets[..i] == packets;
    rates := map code | code in triggerCounts :: triggerCounts[code] as real / totalSteps as real;
  }

  /**
   * For a non-empty trace, a code has a rate iff some packet lists it, and the
   * rate is the number of listings over the number of packets.
   */
  lemma {:induction false} GuardRatesMeaning(ps: seq<Packet>)
    requires |ps| > 0
    ensures forall c :: c in GuardRates(ps) <==> exists i :: 0 <= i < |ps| && c in CodesOf(ps[i])
    ensures forall c :: c in GuardRates(ps) ==> GuardRates(ps)[c] == Occurrences(AllCodes(ps), c) as real / |ps| as real
  {
    TallyCounts(AllCodes(ps));
    forall c ensures c in AllCodes(ps) <==> exists i :: 0 <= i < |ps| && c in CodesOf(ps[i]) {
      AllCodesMembers(ps, c);
    }
  }

  /** A count out of a total lies in [0, 1], and is 1 only when the count is the total. */
  lemma {:induction false} RatioBounded(k: nat, n: nat)
    requires 0 < n && k <= n
    ensures 0.0 <= k as real / n as real <= 1.0
    ensures k as real / n as real == 1.0 <==> k == n
  {
    var q, kr, nr := k as real / n as real, k as real, n as real;
    assert q * nr == kr;
    ProductCompare(q, nr);
  }

  /** Multiplying a positive `y` by `x` keeps the order of `x` against 0 and against 1. */
  lemma {:induction false} ProductCompare(x: real, y: real)
    requires y > 0.0
    ensures x < 0.0 ==> x * y < 0.0
    ensures x < 1.0 ==> x * y < y
    ensures x > 1.0 ==> x * y > y
    ensures x == 1.0 ==> x * y == y
  {
  }

  /** When no packet lists a code twice, every rate lies in [0, 1]. */
  lemma {:induction false} GuardRatesBounded(ps: seq<Packet>)
    requires forall i :: 0 <= i < |ps| ==> NoDuplicates(CodesOf(ps[i]))
    ensures forall c :: c in GuardRates(ps) ==> 0.0 <= GuardRates(ps)[c] <= 1.0
  {
    if |ps| > 0 {
      TallyCounts(AllCodes(ps));
      forall c | c in GuardRates(ps) ensures 0.0 <= GuardRates(ps)[c] <= 1.0 {
        AllCodesBound(ps, c);
        RatioBounded(Occurrences(AllCodes(ps), c), |ps|);
      }
    }
  }

  /** Duplicates are counted once per listing: one packet listing "x" twice gives "x" the rate 2. */
  lemma {:induction false} GuardRateCountsDuplicates(p: Packet)
    requires p.mismatch == Some(Mismatch(None, Some(["x", "x"])))
    ensures GuardRates([p]) == map["x" := 2.0]
  {
    assert [p][..0] == [];
    assert AllCodes([p]) == ["x", "x"];
    assert ["x", "x"][..1] == ["x"] && ["x"][..0] == [];
    assert Tally(["x"]) == map["x" := 1];
    assert Tally(["x", "x"]) == map["x" := 2];
  }

  // ---------------------------------------------------------------------------
  // safety_invariant_pass_rate
  // ---------------------------------------------------------------------------

  /**
   * The per-packet safety check: an allowed packet passes when it has no
   * mismatch or a mismatch without flags; a denied packet passes when it has
   * a mismatch.
   */
  predicate Passes(p: Packet)
  {
    if Allowed(p) then p.mismatch.None? || Flags(p.mismatch.value) == []
    else p.mismatch.Some?
  }

  /** Number of passing packets. */
  function PassCount(ps: seq<Packet>): nat
  {
    if ps == [] then 0
    else PassCount(ps[..|ps| - 1]) + (if Passes(ps[|ps| - 1]) then 1 else 0)
  }

  /** The specification of `safety_invariant_pass_rate`. */
  function SafetyRate(ps: seq<Packet>): real
  {
    if |ps| == 0 then 1.0 else PassCount(ps) as real / |ps| as real
  }

  /** `safety_invariant_pass_rate`: 1.0 for no packets, otherwise passed / total. */
  method SafetyInvariantPassRate(packets: seq<Packet>) returns (rate: real)
    ensures rate == SafetyRate(packets)
  {
    if |packets| == 0 {
      return 1.0;
    }
    var passed := 0;
    var total := |packets|;
    for i := 0 to total
      invariant passed == PassCount(packets[..i])
    {
      assert packets[..i + 1][..i] == packets[..i];
      var packet := packets[i];
      var allowed := packet.finalAction.allowed.GetOr(true);
      if allowed {
        if packet.mismatch.None? || Flags(packet.mismatch.value) == [] {
          passed := passed + 1;
        }
      } else {
        if packet.mismatch.Some? {
          passed := passed + 1;
        }
      }
    }
    assert packets[..total] == packets;
    rate := if total > 0 then passed as real / total as real else 1.0;
  }

  /** At most every packet passes, and exactly all do iff each one passes. */
  lemma {:induction false} PassCountBound(ps: seq<Packet>)
    ensures PassCount(ps) <= |ps|
    ensures PassCount(ps) == |ps| <==> forall i :: 0 <= i < |ps| ==> Passes(ps[i])
  {
    if ps != [] {
      var init := ps[..|ps| - 1];
      PassCountBound(init);
      assert forall i :: 0 <= i < |init| ==> init[i] == ps[i];
    }
  }

  /** The rate lies in [0, 1], and is 1 iff every packet passes (vacuously so for no packets). */
  lemma {:induction false} SafetyRateBounds(ps: seq<Packet>)
    ensures 0.0 <= SafetyRate(ps) <= 1.0
    ensures SafetyRate(ps) == 1.0 <==> forall i :: 0 <= i < |ps| ==> Passes(ps[i])
  {
    PassCountBound(ps);
    if |ps| > 0 {
      RatioBounded(PassCount(ps), |ps|);
    }
  }

  // ---------------------------------------------------------------------------
  // latency_percentiles
  // ---------------------------------------------------------------------------

  /** `[p.latency_ms for p in packets if hasattr(p, "latency_ms")]`. */
  function LatencyList(ps: seq<Packet>): seq<int>
  {
    if ps == [] then []
    else (if ps[0].latencyMs.Some? then [ps[0].latencyMs.value] else []) + LatencyList(ps[1..])
  }

  lemma {:induction false} LatencyListAppend(a: seq<Packet>, b: seq<Packet>)
    ensures LatencyList(a + b) == LatencyList(a) + LatencyList(b)
  {
    if a != [] {
      assert (a + b)[1..] == a[1..] + b;
      LatencyListAppend(a[1..], b);
    } else {
      assert a + b == b;
    }
  }

  /** Taking one element out of the middle takes it out of the multiset. */
  lemma {:induction false} MultisetRemove<T>(qs: seq<T>, j: int)
    requires 0 <= j < |qs|
    ensures multiset(qs[..j] + qs[j + 1..]) == multiset(qs) - multiset{qs[j]}
  {
    assert qs == qs[..j] + [qs[j]] + qs[j + 1..];
  }

  /** Taking one packet out of the middle takes its latency out of the collected multiset. */
  lemma {:induction false} LatencyListRemove(qs: seq<Packet>, j: int)
    requires 0 <= j < |qs|
    ensures multiset(LatencyList(qs)) == multiset(LatencyList([qs[j]])) + multiset(LatencyList(qs[..j] + qs[j + 1..]))
  {
    var x := qs[j];
    assert qs == qs[..j] + ([x] + qs[j + 1..]);
    LatencyListAppend(qs[..j], [x] + qs[j + 1..]);
    LatencyListAppend([x], qs[j + 1..]);
    LatencyListAppend(qs[..j], qs[j + 1..]);
  }

  /** The latencies collected depend only on which packets there are, not on their order. */
  lemma {:induction false} LatencyListPermutation(ps: seq<Packet>, qs: seq<Packet>)
    requires multiset(ps) == multiset(qs)
    ensures multiset(LatencyList(ps)) == multiset(LatencyList(qs))
    decreases |ps|
  {
    assert |ps| == |multiset(ps)| == |multiset(qs)| == |qs|;
    if ps != [] {
      var x := ps[0];
      assert x in multiset(qs);
      var j :| 0 <= j < |qs| && qs[j] == x;
      var rest := qs[..j] + qs[j + 1..];
      assert multiset(rest) == multiset(ps[1..]) by {
        MultisetRemove(qs, j);
        assert ps == [x] + ps[1..];
      }
      LatencyListPermutation(ps[1..], rest);
      LatencyListRemove(qs, j);
      LatencyListAppend([x], ps[1..]);
      assert [x] + ps[1..] == ps;
    }
  }

  /** A latency is collected iff some packet carries it. */
  lemma {:induction false} LatencyListMembers(ps: seq<Packet>, v: int)
    ensures v in LatencyList(ps) <==> exists i :: 0 <= i < |ps| && ps[i].latencyMs == Some(v)
  {
    if ps != [] {
      LatencyListMembers(ps[1..], v);
      if exists i :: 0 <= i < |ps[1..]| && ps[1..][i].latencyMs == Some(v) {
        var i :| 0 <= i < |ps[1..]| && ps[1..][i].latencyMs == Some(v);
        assert ps[i + 1] == ps[1..][i];
      }
      if exists i :: 0 <= i < |ps| && ps[i].latencyMs == Some(v) {
        var i :| 0 <= i < |ps| && ps[i].latencyMs == Some(v);
        if i > 0 {
          assert ps[1..][i - 1] == ps[i];
        }
      }
    }
  }

  datatype Percentiles = Percentiles(p50: int, p95: int, p99: int)

  /**
   * The nearest-rank index `floor(k * n / 100)`, clamped to the last position.
   * (The source computes `int((k / 100.0) * n)` in floating point; the model
   * takes the exact quotient and leaves the rounding of that product out.)
   */
  function RankIndex(k: nat, n: nat): (i: nat)
    requires n > 0
    ensures i < n
    ensures i <= k * n / 100
    ensures k * n / 100 < n ==> i == k * n / 100
  {
    var idx := k * n / 100;
    if idx < n - 1 then idx else n - 1
  }

  /** The inner `percentile(k)` over the sorted latencies. */
  function Percentile(sorted: seq<int>, k: nat): (r: int)
    requires |sorted| > 0
    ensures r in sorted
    ensures Sorted(sorted) ==> forall i :: 0 <= i <= RankIndex(k, |sorted|) ==> sorted[i] <= r
    ensures Sorted(sorted) ==> forall i :: RankIndex(k, |sorted|) <= i < |sorted| ==> r <= sorted[i]
  {
    sorted[RankIndex(k, |sorted|)]
  }

  /** `latency_percentiles`: zeros when no packet has a latency, otherwise nearest-rank p50, p95, p99. */
  function LatencyPercentiles(ps: seq<Packet>): Percentiles
  {
    var latencies := LatencyList(ps);
    if |latencies| == 0 then Percentiles(0, 0, 0)
    else
      var sorted := Sort(latencies);
      Percentiles(Percentile(sorted, 50), Percentile(sorted, 95), Percentile(sorted, 99))
  }

  /** A higher rank never gives a lower index. */
  lemma {:induction false} RankIndexMonotone(k1: nat, k2: nat, n: nat)
    requires n > 0 && k1 <= k2
    ensures RankIndex(k1, n) <= RankIndex(k2, n)
  {
    assert k2 * n == k1 * n + (k2 - k1) * n;
    DivMonotone(k1 * n, k2 * n);
  }

  /** Integer division by 100 is monotone. */
  lemma {:induction false} DivMonotone(a: nat, b: nat)
    requires a <= b
    ensures a / 100 <= b / 100
  {
  }

  /** A higher rank never gives a smaller percentile. */
  lemma {:induction false} PercentileMonotone(sorted: seq<int>, k1: nat, k2: nat)
    requires Sorted(sorted) && |sorted| > 0
    requires k1 <= k2
    ensures Percentile(sorted, k1) <= Percentile(sorted, k2)
  {
    RankIndexMonotone(k1, k2, |sorted|);
  }

  /** p50 <= p95 <= p99. */
  lemma {:induction false} PercentilesOrdered(ps: seq<Packet>)
    ensures LatencyPercentiles(ps).p50 <= LatencyPercentiles(ps).p95 <= LatencyPercentiles(ps).p99
  {
    var latencies := LatencyList(ps);
    if |latencies| > 0 {
      PercentileMonotone(Sort(latencies), 50, 95);
      PercentileMonotone(Sort(latencies), 95, 99);
    }
  }

  /** With at least one latency, each percentile is one of the latencies. */
  lemma {:induction false} PercentilesAreLatencies(ps: seq<Packet>)
    requires |LatencyList(ps)| > 0
    ensures LatencyPercentiles(ps).p50 in LatencyList(ps)
    ensures LatencyPercentiles(ps).p95 in LatencyList(ps)
    ensures LatencyPercentiles(ps).p99 in LatencyList(ps)
  {
    var latencies := LatencyList(ps);
    var sorted := Sort(latencies);
    assert forall i :: 0 <= i < |sorted| ==> sorted[i] in multiset(latencies);
  }

  /** The last element of a sorted sequence is its maximum. */
  lemma {:induction false} LastIsMaximum(sorted: seq<int>)
    requires Sorted(sorted) && |sorted| > 0
    ensures forall i :: 0 <= i < |sorted| ==> sorted[i] <= sorted[|sorted| - 1]
  {
  }

  /** The last element of the sorted list is at least every element of the list. */
  lemma {:induction false} SortedLastIsMaximum(s: seq<int>)
    requires |s| > 0
    ensures forall i :: 0 <= i < |s| ==> s[i] <= Sort(s)[|s| - 1]
  {
    var sorted := Sort(s);
    LastIsMaximum(sorted);
    forall i | 0 <= i < |s| ensures s[i] <= sorted[|s| - 1] {
      assert s[i] in multiset(sorted);
    }
  }

  /**
   * For small samples the top percentiles are the maximum latency: with at most
   * 20 latencies p95 is, and with at most 100 p99 is.
   */
  lemma {:induction false} PercentilesSmallSample(ps: seq<Packet>)
    requires |LatencyList(ps)| > 0
    ensures |LatencyList(ps)| <= 20 ==> forall i :: 0 <= i < |LatencyList(ps)| ==> LatencyList(ps)[i] <= LatencyPercentiles(ps).p95
    ensures |LatencyList(ps)| <= 100 ==> forall i :: 0 <= i < |LatencyList(ps)| ==> LatencyList(ps)[i] <= LatencyPercentiles(ps).p99
  {
    var latencies := LatencyList(ps);
    var n := |latencies|;
    SortedLastIsMaximum(latencies);
    if n <= 20 {
      RankTop(95, n);
    }
    if n <= 100 {
      RankTop(99, n);
    }
  }

  /** For a rank k in [95, 99], at most 100 / (100 - k) positions make the rank the last one. */
  lemma {:induction false} RankTop(k: nat, n: nat)
    requires 95 <= k <= 99 && 0 < n && (100 - k) * n <= 100
    ensures RankIndex(k, n) == n - 1
  {
    var q := k * n / 100;
    assert 100 * q > k * n - 100;
    assert k * n - 100 >= 100 * (n - 2) by {
      assert k * n == 100 * n - (100 - k) * n;
    }
  }

  /**
   * The docstring of `latency_percentiles` works the example k = 95, n = 100
   * as "index = 95 (0-indexed: 94)"; the code, and this model, take index 95.
   */
  lemma {:induction false} RankIndexDocstringExample()
    ensures RankIndex(95, 100) == 95
    ensures NearestRankIndex(95, 100) == 94
  {
    NearestRankIndexMeaning(95, 100);
  }

  /**
   * The textbook nearest-rank index: the 0-based position of rank
   * ceil(k * n / 100), at least the first position.
   */
  function NearestRankIndex(k: nat, n: nat): (i: nat)
    requires n > 0 && k <= 100
    ensures i < n
  {
    var rank := (k * n + 99) / 100;
    if rank == 0 then 0 else rank - 1
  }

  /**
   * The nearest-rank index is the first position through which at least k
   * percent of the n values lie: (i + 1) / n >= k / 100, and no earlier
   * position has that property.
   */
  lemma {:induction false} NearestRankIndexMeaning(k: nat, n: nat)
    requires n > 0 && 0 < k <= 100
    ensures 100 * (NearestRankIndex(k, n) + 1) >= k * n
    ensures 100 * NearestRankIndex(k, n) < k * n
  {
    var rank := (k * n + 99) / 100;
    assert 100 * rank <= k * n + 99 < 100 * rank + 100;
    assert rank >= 1;
  }

  /** Reordering the packets does not change the percentiles. */
  lemma {:induction false} LatencyPercentilesPermutation(ps: seq<Packet>, qs: seq<Packet>)
    requires multiset(ps) == multiset(qs)
    ensures LatencyPercentiles(ps) == LatencyPercentiles(qs)
  {
    LatencyListPermutation(ps, qs);
    SortPermutation(LatencyList(ps), LatencyList(qs));
    assert |LatencyList(ps)| == |multiset(LatencyList(ps))| == |multiset(LatencyList(qs))| == |LatencyList(qs)|;
  }
}
