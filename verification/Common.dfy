/** Small vocabulary shared by the models: optional values and asyncio's fair lock. */
module Common {

  datatype Option<+T> = None | Some(value: T) {
    function GetOr(default: T): T { if Some? then value else default }
  }

  type Byte = n: nat | n < 256

  /** asyncio.Lock as the event loop sees it between two awaits. A release only wakes the
      first waiter, so the lock can be free while `waiters` is not empty; a newcomer queues
      behind them even then. */
  datatype Lock = Lock(holder: Option<nat>, waiters: seq<nat>)

  const FREE: Lock := Lock(None, [])

  /** A newcomer is granted the lock at once only if nobody holds it and nobody waits. */
  predicate Immediate(l: Lock) { l.holder.None? && l.waiters == [] }

  /** The task that may resume next: the first waiter, once the holder has let go. */
  predicate MayResume(l: Lock, id: nat) { l.holder.None? && l.waiters != [] && l.waiters[0] == id }

  ghost predicate NoDuplicates<T(!new)>(s: seq<T>) {
    forall i, j :: 0 <= i < j < |s| ==> s[i] != s[j]
  }

  /** The least element of a set of numbers. */
  function Lowest(s: set<nat>): (m: nat)
    requires s != {}
    ensures m in s && forall x :: x in s ==> m <= x
  {
    LowestExists(s);
    var m :| m in s && forall x :: x in s ==> m <= x;
    m
  }

  lemma LowestExists(s: set<nat>)
    requires s != {}
    ensures exists m :: m in s && forall x :: x in s ==> m <= x
  {
    var m := FindLowest(s);
  }

  lemma {:induction false} FindLowest(s: set<nat>) returns (m: nat)
    requires s != {}
    ensures m in s && forall x :: x in s ==> m <= x
  {
    m :| m in s;
    assert forall x :: x in s ==> x == m || x in s - {m};
    if s - {m} != {} {
      var r := FindLowest(s - {m});
      m := if r < m then r else m;
    }
  }

  ghost predicate SameElements<T(!new)>(s: seq<T>, t: set<T>) {
    (forall x :: x in s <==> x in t)
  }
}

/** Credentials and cache entries of src/engine/snmp_credential.py and snmp_adapter.py. */
module SnmpCredential {

  datatype Cred = V2c(community: string) | V3(username: string, auth: string, priv: string)

  /** A CREDENTIAL_CACHE value: the (UNRESPONSIVE, tick) marker or a working credential. */
  datatype Entry = Unresponsive(atTick: int) | Works(cred: Cred)
}
