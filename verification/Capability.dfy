/** The capability cache of src/engine/snmp_pipeline.py: which steps a device answered is stored as
    text, a fast poll runs only those, a deep poll runs them all. */
module Capability {
  import opened Common
  import opened Decimal

  type Ip = string
  type Step = nat

  /** The step registry is any set with the gate, step 10, first and the profile, step 20. */
  ghost predicate Registry(registry: set<Step>) { {10, 20} <= registry && forall s :: s in registry ==> s >= 10 }

  /** The registered steps of the repository. */
  lemma TheRegistry()
    ensures Registry({10, 20, 30, 35, 40, 50, 60, 70, 80})
  {
  }

  function StepSet(q: seq<Step>): (s: set<Step>)
    ensures forall x :: x in s <==> x in q
  {
    set x | x in q
  }

  datatype StepResult = StepResult(shouldContinue: bool, hasData: bool)

  /** How a device answers one poll: the reachability gate, step 10, stops the run when it gets no
      data; no other step stops it. */
  ghost predicate Device(registry: set<Step>, answer: Step -> StepResult) {
    && answer(10).shouldContinue == answer(10).hasData
    && forall s :: s in registry && s != 10 ==> answer(s).shouldContinue
  }

  function Responding(registry: set<Step>, answer: Step -> StepResult): set<Step> {
    set s | s in registry && answer(s).hasData
  }

  /** sorted(...) of distinct steps */
  function Sorted(s: set<Step>): (q: seq<Step>)
    ensures forall x :: x in q <==> x in s
    ensures forall i, j :: 0 <= i < j < |q| ==> q[i] < q[j]
  {
    if s == {} then [] else [Lowest(s)] + Sorted(s - {Lowest(s)})
  }

  // ----- the stored text --------------------------------------------------------------

  function Printed(q: seq<Step>): seq<string> { seq(|q|, i requires 0 <= i < |q| => Print(q[i])) }

  /** ",".join(map(str, sorted(steps))) */
  function Render(s: set<Step>): string { Join(Printed(Sorted(s)), ',') }

  /** The steps of the fields that are numbers. */
  function Numbers(fields: seq<string>): seq<Step> {
    if fields == [] then []
    else (if AllDigits(fields[0]) then [Value(fields[0])] else []) + Numbers(fields[1..])
  }

  /** [int(x) for x in text.split(',') if x.isdigit()], nothing for an empty column */
  function Cached(text: string): seq<Step> { if text == "" then [] else Numbers(Split(text, ',')) }

  lemma {:induction false} NumbersOfPrinted(q: seq<Step>)
    ensures Numbers(Printed(q)) == q
  {
    if q != [] {
      NumbersOfPrinted(q[1..]);
      ValueOfPrint(q[0]);
      assert Printed(q)[1..] == Printed(q[1..]);
    }
  }

  /** The stored text reads back as exactly the steps that were stored, in order. */
  lemma StoredTextRoundTrips(s: set<Step>)
    ensures Cached(Render(s)) == Sorted(s)
  {
    var q := Sorted(s);
    if q == [] {
      assert Printed(q) == [];
    } else {
      SplitOfJoin(Printed(q), ',');
      NumbersOfPrinted(q);
      assert Render(s) != "" by {
        assert Printed(q)[0] != "";
      }
    }
  }

  // ----- one poll ---------------------------------------------------------------------

  /** The steps a poll runs; None: the device has no row yet. */
  function ToRun(registry: set<Step>, cached: Option<set<Step>>, deep: bool): set<Step> {
    if deep || cached.None? then registry else cached.value + {10, 20}
  }

  /** The steps a poll leaves in the cache. */
  function After(registry: set<Step>, cached: Option<set<Step>>, deep: bool, responding: set<Step>): set<Step> {
    if 10 in responding then ToRun(registry, cached, deep) * responding else {}
  }

  /** Every stored text renders a set of registered steps. */
  ghost predicate WellStored(registry: set<Step>, stored: map<Ip, string>) {
    forall ip :: ip in stored ==> exists s :: Stores(registry, stored[ip], s)
  }

  ghost predicate Stores(registry: set<Step>, text: string, s: set<Step>) { s <= registry && text == Render(s) }

  /** The cache entry of a device as a set of steps. */
  ghost function CacheOf(stored: map<Ip, string>, ip: Ip): Option<set<Step>> {
    if ip in stored then Some(StepSet(Cached(stored[ip]))) else None
  }

  lemma CacheReadsBack(stored: map<Ip, string>, ip: Ip, s: set<Step>)
    requires ip in stored && stored[ip] == Render(s)
    ensures CacheOf(stored, ip) == Some(s)
  {
    StoredTextRoundTrips(s);
    assert StepSet(Cached(stored[ip])) == s;
  }

  /** Appending a larger step keeps the list sorted. */
  function Append(q: seq<Step>, s: Step): (r: seq<Step>)
    requires forall x :: x in q ==> x < s
    requires forall i, j :: 0 <= i < j < |q| ==> q[i] < q[j]
    ensures forall i, j :: 0 <= i < j < |r| ==> r[i] < r[j]
    ensures forall x :: x in r <==> x in q || x == s
  {
    assert forall i :: 0 <= i < |q| ==> q[i] in q;
    q + [s]
  }

  class Pipeline {
    const registry: set<Step>
    /** device_capabilities.working_functions by IP */
    var stored: map<Ip, string>

    /** The repository's pipeline as its decorators register it, over an empty table. */
    constructor ()
      ensures Registry(registry) && registry == {10, 20, 30, 35, 40, 50, 60, 70, 80}
      ensures stored == map[] && WellStored(registry, stored)
    {
      registry, stored := {10, 20, 30, 35, 40, 50, 60, 70, 80}, map[];
      new;
      TheRegistry();
    }

    /** The step loop. */
    method RunSteps(steps: seq<Step>, answer: Step -> StepResult) returns (working: seq<Step>)
      requires Registry(registry) && Device(registry, answer) && |steps| > 0 && steps[0] == 10
      requires forall i :: 0 <= i < |steps| ==> steps[i] in registry
      requires forall i, j :: 0 <= i < j < |steps| ==> steps[i] < steps[j]
      ensures forall s :: s in working <==>
        s in steps && 10 in Responding(registry, answer) && s in Responding(registry, answer)
      ensures forall i, j :: 0 <= i < j < |working| ==> working[i] < working[j]
    {
      working := [];
      for i := 0 to |steps|
        invariant if i > 0 then 10 in Responding(registry, answer) else working == []
        invariant forall s :: s in working <==> s in steps[..i] && s in Responding(registry, answer)
        invariant forall k, j :: 0 <= k < j < |working| ==> working[k] < working[j]
      {
        var s := steps[i];
        var result := answer(s);
        assert forall w :: w in working ==> w in steps[..i] && w < s;
        if result.hasData {
          working := Append(working, s);
        }
        if !result.shouldContinue {
          return;
        }
        assert steps[..i + 1] == steps[..i] + [s];
      }
      assert steps[..|steps|] == steps;
    }

    /** run_snmp_pipeline, the cache half. Every step it runs is registered. */
    method RunSnmpPipeline(ip: Ip, deep: bool, answer: Step -> StepResult) returns (working: seq<Step>)
      requires Registry(registry) && Device(registry, answer) && WellStored(registry, stored)
      modifies this
      ensures WellStored(registry, stored)
      ensures forall s :: s in working <==>
        && s in registry && answer(10).hasData && answer(s).hasData
        && (deep || ip !in old(stored) || s == 10 || s == 20 || s in Cached(old(stored)[ip]))
      ensures forall i, j :: 0 <= i < j < |working| ==> working[i] < working[j]
      ensures ip in stored && stored[ip] == Render(StepSet(working))
      ensures CacheOf(stored, ip) == Some(After(registry, CacheOf(old(stored), ip), deep, Responding(registry, answer)))
      ensures working == Sorted(After(registry, CacheOf(old(stored), ip), deep, Responding(registry, answer)))
      ensures stored.Keys == old(stored).Keys + {ip}
      ensures forall other :: other in old(stored) && other != ip ==> stored[other] == old(stored)[other]
    {
      hide After, CacheOf, WellStored, Device, Responding, ToRun, Registry;
      ghost var cached := CacheOf(stored, ip);
      var steps := StepsToRun(ip, deep);
      working := RunGated(cached, deep, steps, answer);
      Kept(registry, stored, ip, deep, answer);
      Store(ip, StepSet(working));
    }

    /** The run of one poll's steps, in order. */
    method RunGated(ghost cached: Option<set<Step>>, ghost deep: bool, steps: set<Step>, answer: Step -> StepResult)
      returns (working: seq<Step>)
      requires Registry(registry) && Device(registry, answer)
      requires steps == ToRun(registry, cached, deep) && 10 in steps && steps <= registry
      ensures working == Sorted(After(registry, cached, deep, Responding(registry, answer)))
      ensures StepSet(working) == After(registry, cached, deep, Responding(registry, answer)) <= registry
    {
      GateFirst(registry, steps);
      working := RunSteps(Sorted(steps), answer);
      WorkingIsAfter(registry, cached, deep, Responding(registry, answer), steps, working);
    }

    /** What the stored row and the tick decide to run. */
    method StepsToRun(ip: Ip, deep: bool) returns (steps: set<Step>)
      requires Registry(registry) && WellStored(registry, stored)
      ensures steps == ToRun(registry, CacheOf(stored, ip), deep) && 10 in steps && steps <= registry
    {
      if ip in stored && !deep {
        ghost var s :| Stores(registry, stored[ip], s);
        CacheReadsBack(stored, ip, s);
        return StepSet(Cached(stored[ip])) + {10, 20};
      }
      return registry;
    }

    /** The upsert of the row. */
    method Store(ip: Ip, kept: set<Step>)
      requires Registry(registry) && WellStored(registry, stored) && kept <= registry
      modifies this
      ensures WellStored(registry, stored) && CacheOf(stored, ip) == Some(kept)
      ensures stored == old(stored)[ip := Render(kept)]
    {
      stored := stored[ip := Render(kept)];
      CacheReadsBack(stored, ip, kept);
      assert Stores(registry, stored[ip], kept);
    }
  }

  /** The steps a poll keeps, from the stored text and the answers. */
  lemma Kept(registry: set<Step>, stored: map<Ip, string>, ip: Ip, deep: bool, answer: Step -> StepResult)
    requires Registry(registry)
    ensures forall s :: s in After(registry, CacheOf(stored, ip), deep, Responding(registry, answer)) <==>
      && s in registry && answer(10).hasData && answer(s).hasData
      && (deep || ip !in stored || s == 10 || s == 20 || s in Cached(stored[ip]))
  {
    hide Cached;
  }

  lemma WorkingIsAfter(registry: set<Step>, cached: Option<set<Step>>, deep: bool, responding: set<Step>,
      steps: set<Step>, working: seq<Step>)
    requires steps == ToRun(registry, cached, deep) && steps <= registry
    requires forall s :: s in working <==> s in Sorted(steps) && 10 in responding && s in responding
    requires forall i, j :: 0 <= i < j < |working| ==> working[i] < working[j]
    ensures StepSet(working) == After(registry, cached, deep, responding) <= registry
    ensures working == Sorted(After(registry, cached, deep, responding))
  {
    var kept := StepSet(working);
    assert kept == After(registry, cached, deep, responding);
    SortedUnique(kept, working);
  }

  lemma GateFirst(registry: set<Step>, steps: set<Step>)
    requires Registry(registry) && 10 in steps && steps <= registry
    ensures |Sorted(steps)| > 0 && Sorted(steps)[0] == 10
  {
    assert Lowest(steps) == 10;
  }

  lemma HeadIsLowest(s: set<Step>, q: seq<Step>)
    requires q != [] && (forall x :: x in q <==> x in s)
    requires forall i, j :: 0 <= i < j < |q| ==> q[i] < q[j]
    ensures s != {} && Lowest(s) == q[0]
    ensures forall x :: x in q[1..] <==> x in s - {q[0]}
  {
    assert q[0] in s;
    var k :| 0 <= k < |q| && q[k] == Lowest(s);
    forall x ensures x in q[1..] <==> x in s - {q[0]} {
      if x in s - {q[0]} {
        var j :| 0 <= j < |q| && q[j] == x;
        assert q[1..][j - 1] == x;
      }
    }
  }

  /** There is one sorted list of a set. */
  lemma {:induction false} SortedUnique(s: set<Step>, q: seq<Step>)
    requires forall x :: x in q <==> x in s
    requires forall i, j :: 0 <= i < j < |q| ==> q[i] < q[j]
    ensures q == Sorted(s)
  {
    if q == [] {
      assert s == {} by { assert forall x :: x !in s; }
    } else {
      HeadIsLowest(s, q);
      SortedUnique(s - {q[0]}, q[1..]);
      assert Sorted(s) == [q[0]] + q[1..];
    }
  }

  // ----- over a history of polls ------------------------------------------------------

  datatype Poll = Poll(deep: bool, responding: set<Step>)

  /** The cache after a device's first polls. */
  function History(registry: set<Step>, polls: seq<Poll>): Option<set<Step>> {
    if polls == [] then None
    else
      var last := polls[|polls| - 1];
      Some(After(registry, History(registry, polls[..|polls| - 1]), last.deep, last.responding))
  }

  /** Between deep polls the steps other than 10 and 20 only ever leave the cache. */
  lemma FastPollShrinks(registry: set<Step>, cached: set<Step>, responding: set<Step>)
    ensures After(registry, Some(cached), false, responding) - {10, 20} <= cached - {10, 20}
  {
  }

  /** One deep poll that passes the gate restores exactly the responding steps, whatever came before. */
  lemma DeepPollRestores(registry: set<Step>, polls: seq<Poll>, responding: set<Step>)
    requires Registry(registry) && 10 in responding && responding <= registry
    ensures History(registry, polls + [Poll(true, responding)]) == Some(responding)
  {
    var p := polls + [Poll(true, responding)];
    assert p[..|p| - 1] == polls;
    assert registry * responding == responding;
  }

  /** Since poll `k` the gate and the step answered every time. */
  predicate AnsweredSince(polls: seq<Poll>, k: int, s: Step) {
    0 <= k < |polls| && forall j :: k <= j < |polls| ==> {10, s} <= polls[j].responding
  }

  /** The first poll of a device is deep whatever its flag says. */
  predicate RunsAll(polls: seq<Poll>, k: int) { 0 <= k < |polls| && (k == 0 || polls[k].deep) }

  /** What the cache knows, over every history: a step is in it exactly when some full poll found it
      and it, and the gate, answered ever since. Steps 10 and 20 are asked every time, so only the
      last poll counts for them. */
  lemma {:induction false} CachedIff(registry: set<Step>, polls: seq<Poll>, s: Step)
    requires Registry(registry) && polls != [] && s in registry
    ensures s != 10 && s != 20 ==>
      (s in History(registry, polls).value <==> exists k :: RunsAll(polls, k) && AnsweredSince(polls, k, s))
    ensures s == 10 || s == 20 ==> (s in History(registry, polls).value <==> AnsweredSince(polls, |polls| - 1, s))
    ensures History(registry, polls).value <= registry
  {
    var n := |polls| - 1;
    var before, last := polls[..n], polls[n];
    if before != [] {
      CachedIff(registry, before, s);
      if s != 10 && s != 20 {
        if s in History(registry, polls).value {
          if last.deep {
            assert RunsAll(polls, n) && AnsweredSince(polls, n, s);
          } else {
            var k :| RunsAll(before, k) && AnsweredSince(before, k, s);
            assert RunsAll(polls, k) && AnsweredSince(polls, k, s);
          }
        }
        if k :| RunsAll(polls, k) && AnsweredSince(polls, k, s) {
          if k < n {
            assert RunsAll(before, k) && AnsweredSince(before, k, s);
          }
        }
      }
    } else {
      assert s in History(registry, polls).value ==> RunsAll(polls, 0) && AnsweredSince(polls, 0, s);
    }
  }

  /** A single missed answer on a fast poll hides a step until the next deep poll. */
  lemma MissedUntilDeep(registry: set<Step>, polls: seq<Poll>, missed: nat, s: Step)
    requires Registry(registry) && missed < |polls| && s in registry && s != 10 && s != 20
    requires s !in polls[missed].responding || 10 !in polls[missed].responding
    requires forall j :: missed < j < |polls| ==> !polls[j].deep
    ensures s !in History(registry, polls).value
  {
    CachedIff(registry, polls, s);
  }
}
