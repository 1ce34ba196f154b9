/** The kernel's filter store: one dynamic session, one transaction at a time.
    Any call but the close may fail when the engine is faulty. */
module WfpStore {
  import opened Wrappers
  import opened WfpPolicy

  type Store = map<nat, Filter>

  ghost function InForce(live: Store): iset<Filter> { iset f | f in live.Values }

  /** The ids handed out next, in order. */
  function Range(n: nat, k: nat): (r: seq<nat>)
    ensures |r| == k && forall i :: 0 <= i < k ==> r[i] == n + i
    ensures forall id :: id in r <==> n <= id < n + k
  {
    var r := seq(k, i requires 0 <= i => n + i);
    assert forall id: nat :: n <= id < n + k ==> id in r by {
      forall id: nat | n <= id < n + k ensures id in r {
        assert r[id - n] == id;
      }
    }
    r
  }

  /** `m` with the filters `fs` added under the consecutive ids from `n`. */
  function Extend(m: Store, n: nat, fs: seq<Filter>): Store {
    map id | id in m.Keys + (set i | i in Range(n, |fs|)) :: if n <= id < n + |fs| then fs[id - n] else m[id]
  }

  lemma OneMoreId(known: seq<nat>, n: nat, id: nat)
    requires n <= id
    ensures known + Range(n, id - n) + [id] == known + Range(n, id + 1 - n)
  {
  }

  lemma RangesJoin(known: seq<nat>, n: nat, k: nat, j: nat)
    ensures known + Range(n, k) + Range(n + k, j) == known + Range(n, k + j)
  {
  }

  lemma ExtendNone(m: Store, n: nat)
    ensures Extend(m, n, []) == m
  {
  }

  lemma ExtendMore(m: Store, n: nat, fs: seq<Filter>, gs: seq<Filter>)
    ensures Extend(Extend(m, n, fs), n + |fs|, gs) == Extend(m, n, fs + gs)
    ensures Range(n, |fs|) + Range(n + |fs|, |gs|) == Range(n, |fs + gs|)
  {
  }

  /** `m` is `was` less some of the listed ids, and nothing else. */
  ghost predicate Shrunk(m: Store, was: Store, ids: seq<nat>) {
    && (forall id :: id in m ==> id in was && m[id] == was[id])
    && (forall id :: id in was && id !in ids ==> id in m)
  }

  class Engine {
    /** The filters in force. */
    var live: Store
    /** The working copy of the open transaction. */
    var txn: Option<Store>
    /** Ids are handed out in order and never reused, even after an abort. */
    var nextId: nat
    /** Whether calls may fail for reasons of their own. */
    const faulty: bool

    constructor (faulty: bool)
      ensures this.faulty == faulty && live == map[] && txn == None
    {
      this.faulty := faulty;
      live, txn, nextId := map[], None, 0;
    }

    method Status() returns (ok: bool)
      ensures !faulty ==> ok
    {
      ok := true;
      if faulty {
        ok := *;
      }
    }

    /** Closing the dynamic session drops every filter in it. */
    method Close()
      modifies this`live, this`txn
      ensures live == map[] && txn == None
    {
      live, txn := map[], None;
    }

    method Begin() returns (ok: bool)
      modifies this`txn
      ensures ok ==> old(txn) == None && txn == Some(live)
      ensures !ok ==> txn == old(txn)
      ensures !faulty && old(txn) == None ==> ok
    {
      ok := Status();
      ok := ok && txn == None;
      if ok {
        txn := Some(live);
      }
    }

    method Commit() returns (ok: bool)
      requires txn.Some?
      modifies this`live, this`txn
      ensures ok ==> live == old(txn).value && txn == None
      ensures !ok ==> live == old(live) && txn == old(txn)
      ensures !faulty ==> ok
    {
      ok := Status();
      if ok {
        live, txn := txn.value, None;
      }
    }

    /** An abort that fails leaves the transaction pending. */
    method Abort()
      modifies this`txn
      ensures txn == None || txn == old(txn)
      ensures !faulty ==> txn == None
    {
      var ok := Status();
      if ok {
        txn := None;
      }
    }

    method Add(f: Filter) returns (id: nat, ok: bool)
      requires txn.Some?
      modifies this`txn, this`nextId
      ensures id == old(nextId)
      ensures ok ==> txn == Some(Extend(old(txn).value, old(nextId), [f])) && nextId == old(nextId) + 1
      ensures !ok ==> txn == old(txn) && nextId == old(nextId)
      ensures !faulty ==> ok
    {
      id := nextId;
      ok := Status();
      if ok {
        assert txn.value[id := f] == Extend(txn.value, id, [f]);
        txn, nextId := Some(txn.value[id := f]), nextId + 1;
      }
    }

    method Delete(id: nat) returns (ok: bool)
      requires txn.Some?
      modifies this`txn
      ensures txn.Some?
      ensures txn.value == if ok then old(txn).value - {id} else old(txn).value
      ensures ok ==> id in old(txn).value
      ensures !faulty && id in old(txn).value ==> ok
    {
      ok := Status();
      ok := ok && id in txn.value;
      if ok {
        txn := Some(txn.value - {id});
      }
    }

    /** The loops over tracked ids: failed deletions are logged and skipped. */
    method DeleteAll(ids: seq<nat>)
      requires txn.Some?
      modifies this`txn
      ensures txn.Some? && Shrunk(txn.value, old(txn).value, ids)
      ensures !faulty ==> txn.value.Keys !! set id | id in ids
    {
      for k := 0 to |ids|
        invariant txn.Some? && Shrunk(txn.value, old(txn).value, ids)
        invariant !faulty ==> forall i :: 0 <= i < k ==> ids[i] !in txn.value
      {
        var _ := Delete(ids[k]);
      }
    }

    /** The same in a transaction of its own. */
    method DeleteAtomically(ids: seq<nat>) returns (ok: bool)
      modifies this`live, this`txn
      ensures Shrunk(live, old(live), ids)
      ensures ok ==> txn == None == old(txn) && (!faulty ==> live.Keys !! set id | id in ids)
      ensures !ok ==> live == old(live)
      ensures !faulty && old(txn) == None ==> ok
    {
      ok := Begin();
      if ok {
        DeleteAll(ids);
        ok := Commit();
        if !ok {
          Abort();
        }
      }
    }
  }
}
