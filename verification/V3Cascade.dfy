/** _try_v3_cascade of src/engine/snmp_adapter.py: the strength-descending search over auth/priv
    pairings, with the pairing that last worked for an identity tried first. */
module V3Cascade {
  import opened Common
  import opened SnmpCredential

  type Pairing = (string, string)

  const AUTH_PROTOCOLS_BY_STRENGTH := ["SHA-512", "SHA-384", "SHA-256", "SHA-224", "SHA", "MD5"]
  const PRIV_PROTOCOLS_BY_STRENGTH := ["AES-256", "AES-192", "AES-128", "DES"]

  function WithAuth(auth: string, privs: seq<string>): seq<Pairing> {
    if privs == [] then [] else [(auth, privs[0])] + WithAuth(auth, privs[1..])
  }

  function Pairings(auths: seq<string>, privs: seq<string>): seq<Pairing> {
    if auths == [] then [] else WithAuth(auths[0], privs) + Pairings(auths[1..], privs)
  }

  const ALL_PAIRINGS := Pairings(AUTH_PROTOCOLS_BY_STRENGTH, PRIV_PROTOCOLS_BY_STRENGTH)

  function Without(all: seq<Pairing>, p: Pairing): seq<Pairing> {
    if all == [] then []
    else if all[0] == p then Without(all[1..], p)
    else [all[0]] + Without(all[1..], p)
  }

  /** proto_order */
  function ProtoOrder(remembered: Option<Pairing>, all: seq<Pairing>): seq<Pairing> {
    if remembered.None? then all else [remembered.value] + Without(all, remembered.value)
  }

  function Remembered(last: map<string, Pairing>, username: string): Option<Pairing> {
    if username in last then Some(last[username]) else None
  }

  function Resolve(username: string, order: seq<Pairing>): seq<Cred> {
    seq(|order|, i requires 0 <= i < |order| => V3(username, order[i].0, order[i].1))
  }

  /** Everything the cascade would try, in order, if nothing answered. */
  function Trials(identities: seq<string>, last: map<string, Pairing>, all: seq<Pairing>): seq<Cred> {
    if identities == [] then []
    else Resolve(identities[0], ProtoOrder(Remembered(last, identities[0]), all)) + Trials(identities[1..], last, all)
  }

  function FirstAnswer(trials: seq<Cred>, answers: Cred -> bool): Option<Cred> {
    if trials == [] then None
    else if answers(trials[0]) then Some(trials[0])
    else FirstAnswer(trials[1..], answers)
  }

  lemma {:induction false} WithoutElements(all: seq<Pairing>, p: Pairing)
    ensures forall q :: q in Without(all, p) <==> q in all && q != p
    ensures NoDuplicates(all) ==> NoDuplicates(Without(all, p))
  {
    if all != [] {
      WithoutElements(all[1..], p);
      assert forall q :: q in all <==> q == all[0] || q in all[1..];
      var w := Without(all[1..], p);
      if NoDuplicates(all) && all[0] != p {
        assert forall i :: 0 <= i < |w| ==> w[i] in w;
        assert forall j :: 0 < j < |all| ==> all[j] != all[0];
        assert all[0] !in all[1..];
      }
    }
  }

  /** Whatever is remembered, the same pairings are tried, each once, the remembered one first. */
  lemma OrderIsComplete(remembered: Option<Pairing>, all: seq<Pairing>)
    requires NoDuplicates(all) && (remembered.Some? ==> remembered.value in all)
    ensures NoDuplicates(ProtoOrder(remembered, all))
    ensures forall q :: q in ProtoOrder(remembered, all) <==> q in all
    ensures remembered.Some? ==> ProtoOrder(remembered, all)[0] == remembered.value
  {
    if remembered.Some? {
      WithoutElements(all, remembered.value);
      var w := Without(all, remembered.value);
      assert forall i :: 0 <= i < |w| ==> w[i] in w;
    }
  }

  lemma {:induction false} WithoutOne(all: seq<Pairing>, k: nat)
    requires NoDuplicates(all) && k < |all|
    ensures Without(all, all[k]) == all[..k] + all[k + 1..]
  {
    if k == 0 {
      WithoutAbsent(all[1..], all[0]);
    } else {
      WithoutOne(all[1..], k - 1);
      assert all[0] != all[k];
      assert all[..k] == [all[0]] + all[1..][..k - 1] && all[1..][k..] == all[k + 1..];
    }
  }

  lemma {:induction false} WithoutAbsent(all: seq<Pairing>, p: Pairing)
    requires p !in all
    ensures Without(all, p) == all
  {
    if all != [] {
      WithoutAbsent(all[1..], p);
    }
  }

  /** The remembered pairing moves to the front and the others keep their order. */
  lemma OrderExactly(all: seq<Pairing>, k: nat)
    requires NoDuplicates(all) && k < |all|
    ensures ProtoOrder(Some(all[k]), all) == [all[k]] + all[..k] + all[k + 1..]
    ensures ProtoOrder(None, all) == all
  {
    WithoutOne(all, k);
  }

  lemma {:induction false} WithAuthElements(auth: string, privs: seq<string>)
    ensures forall q :: q in WithAuth(auth, privs) <==> q.0 == auth && q.1 in privs
    ensures NoDuplicates(privs) ==> NoDuplicates(WithAuth(auth, privs))
  {
    if privs != [] {
      WithAuthElements(auth, privs[1..]);
      var w := WithAuth(auth, privs[1..]);
      assert forall p :: p in privs <==> p == privs[0] || p in privs[1..];
      assert forall i :: 0 <= i < |w| ==> w[i] in w;
    }
  }

  lemma {:induction false} PairingsElements(auths: seq<string>, privs: seq<string>)
    ensures forall q :: q in Pairings(auths, privs) <==> q.0 in auths && q.1 in privs
    ensures NoDuplicates(auths) && NoDuplicates(privs) ==> NoDuplicates(Pairings(auths, privs))
  {
    if auths != [] {
      WithAuthElements(auths[0], privs);
      PairingsElements(auths[1..], privs);
      assert forall a :: a in auths <==> a == auths[0] || a in auths[1..];
      var w, r := WithAuth(auths[0], privs), Pairings(auths[1..], privs);
      assert forall i :: 0 <= i < |w| ==> w[i] in w;
      assert forall i :: 0 <= i < |r| ==> r[i] in r;
    }
  }

  /** Every combination of the two strength lists, each once. */
  lemma AllPairingsElements()
    ensures NoDuplicates(ALL_PAIRINGS)
    ensures forall q :: q in ALL_PAIRINGS <==> q.0 in AUTH_PROTOCOLS_BY_STRENGTH && q.1 in PRIV_PROTOCOLS_BY_STRENGTH
  {
    DistinctNames();
    PairingsElements(AUTH_PROTOCOLS_BY_STRENGTH, PRIV_PROTOCOLS_BY_STRENGTH);
  }

  lemma {:induction false} WithAuthAt(auth: string, privs: seq<string>, j: nat)
    requires j < |privs|
    ensures |WithAuth(auth, privs)| == |privs| && WithAuth(auth, privs)[j] == (auth, privs[j])
  {
    if |privs| > 1 {
      WithAuthAt(auth, privs[1..], if j > 0 then j - 1 else 0);
    }
  }

  /** The pairings in the order of the two lists, the first list leading. */
  lemma {:induction false} PairingsAt(auths: seq<string>, privs: seq<string>, i: nat, j: nat)
    requires i < |auths| && j < |privs|
    ensures i * |privs| + j < |Pairings(auths, privs)|
    ensures Pairings(auths, privs)[i * |privs| + j] == (auths[i], privs[j])
  {
    var w, r := WithAuth(auths[0], privs), Pairings(auths[1..], privs);
    WithAuthAt(auths[0], privs, j);
    if i > 0 {
      PairingsAt(auths[1..], privs, i - 1, j);
      assert i * |privs| + j == |w| + ((i - 1) * |privs| + j);
      assert (w + r)[|w| + ((i - 1) * |privs| + j)] == r[(i - 1) * |privs| + j];
    }
  }

  /** Strength descends: from SHA-512 to MD5, and for each of them from AES-256 to DES. */
  lemma StrengthDescends(i: nat, j: nat)
    requires i < 6 && j < 4
    ensures 4 * i + j < |ALL_PAIRINGS|
    ensures ALL_PAIRINGS[4 * i + j].0 == ["SHA-512", "SHA-384", "SHA-256", "SHA-224", "SHA", "MD5"][i]
    ensures ALL_PAIRINGS[4 * i + j].1 == ["AES-256", "AES-192", "AES-128", "DES"][j]
  {
    PairingsAt(AUTH_PROTOCOLS_BY_STRENGTH, PRIV_PROTOCOLS_BY_STRENGTH, i, j);
  }

  lemma DistinctNames()
    ensures NoDuplicates(AUTH_PROTOCOLS_BY_STRENGTH) && NoDuplicates(PRIV_PROTOCOLS_BY_STRENGTH)
  {
    var a, p := AUTH_PROTOCOLS_BY_STRENGTH, PRIV_PROTOCOLS_BY_STRENGTH;
    assert a[0][4] == '5' && a[1][4] == '3' && a[2][4..] == "256" && a[3][4..] == "224" && a[2][5] != a[3][5];
    assert p[0][4] == '2' && p[1][5] == '9' && p[2][5] == '2';
  }

  ghost predicate Known(last: map<string, Pairing>, all: seq<Pairing>) { forall u :: u in last ==> last[u] in all }

  lemma ResolveElements(username: string, order: seq<Pairing>)
    ensures forall c :: c in Resolve(username, order) <==> c.V3? && c.username == username && (c.auth, c.priv) in order
  {
    var r := Resolve(username, order);
    forall c: Cred | c.V3? && c.username == username && (c.auth, c.priv) in order ensures c in r {
      var i :| 0 <= i < |order| && order[i] == (c.auth, c.priv);
      assert r[i] == c;
    }
    assert forall i :: 0 <= i < |r| ==> order[i] in order;
  }

  lemma {:induction false} TrialsElements(identities: seq<string>, last: map<string, Pairing>, all: seq<Pairing>)
    requires Known(last, all) && NoDuplicates(all)
    ensures forall c :: c in Trials(identities, last, all) <==>
      c.V3? && c.username in identities && (c.auth, c.priv) in all
  {
    if identities != [] {
      TrialsElements(identities[1..], last, all);
      var order := ProtoOrder(Remembered(last, identities[0]), all);
      OrderIsComplete(Remembered(last, identities[0]), all);
      assert forall u :: u in identities <==> u == identities[0] || u in identities[1..];
      ResolveElements(identities[0], order);
    }
  }

  lemma {:induction false} FirstAnswerIffAny(trials: seq<Cred>, answers: Cred -> bool)
    ensures FirstAnswer(trials, answers).Some? <==> exists c :: c in trials && answers(c)
    ensures FirstAnswer(trials, answers).Some? ==>
      FirstAnswer(trials, answers).value in trials && answers(FirstAnswer(trials, answers).value)
  {
    if trials != [] {
      FirstAnswerIffAny(trials[1..], answers);
      assert forall c :: c in trials <==> c == trials[0] || c in trials[1..];
    }
  }

  /** Remembering is only an optimisation: whether the cascade finds a credential does not depend
      on what was remembered, and it finds one exactly when some pairing of some identity works. */
  lemma RememberingOnlyReorders(identities: seq<string>, last: map<string, Pairing>, all: seq<Pairing>,
      answers: Cred -> bool)
    requires Known(last, all) && NoDuplicates(all)
    ensures FirstAnswer(Trials(identities, last, all), answers).Some? <==>
            exists c: Cred :: c.V3? && c.username in identities && (c.auth, c.priv) in all && answers(c)
  {
    TrialsElements(identities, last, all);
    FirstAnswerIffAny(Trials(identities, last, all), answers);
    if c: Cred :| c.V3? && c.username in identities && (c.auth, c.priv) in all && answers(c) {
      assert c in Trials(identities, last, all);
    }
  }

  lemma {:induction false} FirstAnswerAt(trials: seq<Cred>, answers: Cred -> bool) returns (k: nat)
    requires FirstAnswer(trials, answers).Some?
    ensures k < |trials| && FirstAnswer(trials, answers) == Some(trials[k])
    ensures answers(trials[k]) && forall j :: 0 <= j < k ==> !answers(trials[j])
  {
    if answers(trials[0]) {
      k := 0;
    } else {
      k := FirstAnswerAt(trials[1..], answers);
      k := k + 1;
    }
  }

  /** The identities take turns in the order given: the one that answered did so with the first of its
      pairings, in its own order, that answers, and no identity before it answers to any pairing. */
  lemma {:induction false} IdentitiesInTurn(identities: seq<string>, last: map<string, Pairing>, all: seq<Pairing>,
      answers: Cred -> bool) returns (i: nat, k: nat)
    requires Known(last, all) && NoDuplicates(all) && FirstAnswer(Trials(identities, last, all), answers).Some?
    ensures i < |identities|
    ensures forall j, q :: 0 <= j < i && q in all ==> !answers(V3(identities[j], q.0, q.1))
    ensures var u := identities[i];
            var order := ProtoOrder(if u in last then Some(last[u]) else None, all);
            && k < |order| && answers(V3(u, order[k].0, order[k].1))
            && FirstAnswer(Trials(identities, last, all), answers) == Some(V3(u, order[k].0, order[k].1))
            && forall m :: 0 <= m < k ==> !answers(V3(u, order[m].0, order[m].1))
  {
    var order := ProtoOrder(Remembered(last, identities[0]), all);
    var mine, rest := Resolve(identities[0], order), Trials(identities[1..], last, all);
    FirstAnswerConcat(mine, rest, answers);
    if FirstAnswer(mine, answers).Some? {
      i := 0;
      k := FirstAnswerAt(mine, answers);
      assert forall m :: 0 <= m < k ==> mine[m] == V3(identities[0], order[m].0, order[m].1);
    } else {
      var j;
      j, k := IdentitiesInTurn(identities[1..], last, all, answers);
      i := j + 1;
      FirstAnswerIffAny(mine, answers);
      OrderIsComplete(Remembered(last, identities[0]), all);
      ResolveElements(identities[0], order);
      forall x, q | 0 <= x < i && q in all ensures !answers(V3(identities[x], q.0, q.1)) {
        if x == 0 {
          assert V3(identities[0], q.0, q.1) in mine;
        } else {
          assert identities[x] == identities[1..][x - 1];
        }
      }
    }
  }

  lemma {:induction false} FirstAnswerConcat(p: seq<Cred>, q: seq<Cred>, answers: Cred -> bool)
    ensures FirstAnswer(p + q, answers) == if FirstAnswer(p, answers).Some?
      then FirstAnswer(p, answers) else FirstAnswer(q, answers)
  {
    if p == [] {
      assert p + q == q;
    } else {
      assert (p + q)[1..] == p[1..] + q;
      FirstAnswerConcat(p[1..], q, answers);
    }
  }

  /** The module globals the cascade updates; `answers` is what the device would reply. */
  class Adapter {
    var lastWorking: map<string, Pairing>
    var cacheEntry: Option<Entry>
    var failureStreak: Option<nat>

    /** The state after the search ended with `found`. */
    twostate predicate Recorded(new found: Option<Cred>)
      reads this
    {
      match found
      case None => unchanged(this)
      case Some(V3(u, a, p)) =>
        cacheEntry == Some(Works(found.value)) && failureStreak == None && lastWorking == old(lastWorking)[u := (a, p)]
      case Some(V2c(_)) => false
    }

    method TryPairings(username: string, order: seq<Pairing>, answers: Cred -> bool) returns (found: Option<Cred>)
      modifies this
      ensures found == FirstAnswer(Resolve(username, order), answers) && Recorded(found)
      ensures found.Some? ==> found.value.username == username && (found.value.auth, found.value.priv) in order
    {
      ghost var trials := Resolve(username, order);
      var j := 0;
      while j < |order|
        invariant 0 <= j <= |order| && unchanged(this)
        invariant FirstAnswer(trials, answers) == FirstAnswer(trials[j..], answers)
      {
        var trial := V3(username, order[j].0, order[j].1);
        if answers(trial) {
          cacheEntry := Some(Works(trial));
          lastWorking := lastWorking[username := order[j]];
          failureStreak := None;
          return Some(trial);
        }
        j := j + 1;
      }
      return None;
    }

    method TryV3Cascade(identities: seq<string>, all: seq<Pairing>, answers: Cred -> bool) returns (found: Option<Cred>)
      requires NoDuplicates(all)
      modifies this
      ensures found == FirstAnswer(Trials(identities, old(lastWorking), all), answers) && Recorded(found)
      ensures Known(old(lastWorking), all) ==> Known(lastWorking, all)
    {
      var i := 0;
      while i < |identities|
        invariant 0 <= i <= |identities| && unchanged(this)
        invariant FirstAnswer(Trials(identities, lastWorking, all), answers) ==
          FirstAnswer(Trials(identities[i..], lastWorking, all), answers)
      {
        var username := identities[i];
        var order := ProtoOrder(Remembered(lastWorking, username), all);
        assert identities[i..][1..] == identities[i + 1..];
        FirstAnswerConcat(Resolve(username, order), Trials(identities[i + 1..], lastWorking, all), answers);
        OrderKnown(lastWorking, username, all);
        found := TryPairings(username, order, answers);
        if found.Some? {
          return;
        }
        i := i + 1;
      }
      return None;
    }
  }

  lemma OrderKnown(last: map<string, Pairing>, username: string, all: seq<Pairing>)
    requires NoDuplicates(all)
    ensures Known(last, all) ==> forall q :: q in ProtoOrder(Remembered(last, username), all) ==> q in all
  {
    if Known(last, all) {
      OrderIsComplete(Remembered(last, username), all);
    }
  }
}
