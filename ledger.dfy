/**
  The world state the chaincodes run against: an ordered key-value store with point reads,
  point writes and a range scan over the whole key space. It stands in for the transaction
  stub (`getState`, `putState`, `getStringState`, `putStringState`, `getStateByRange('', '')`),
  injected into every operation as a parameter.
 */
module Ledger {
  import opened KeyOrder

  /** A stored entry as the range scan yields it. */
  datatype KV = KV(key: string, value: string)

  type State = map<string, string>

  /** What a point read returns: the stored text, or the empty value when nothing is stored. */
  function ValueAt(st: State, key: string): string {
    if key in st then st[key] else ""
  }

  /** The existence test shared by all three chaincodes: a value is stored and it is not empty. */
  predicate Present(st: State, key: string) {
    key in st && |st[key]| > 0
  }

  /**
    The full range scan: one entry per stored key, in strictly ascending key order, each
    carrying the value stored under its key.
   */
  function Scan(st: State): (r: seq<KV>)
    ensures |r| == |st|
    ensures forall i :: 0 <= i < |r| ==> r[i].key in st && st[r[i].key] == r[i].value
    ensures forall k :: k in st ==> exists i :: 0 <= i < |r| && r[i].key == k
    ensures forall i, j :: 0 <= i < j < |r| ==> Less(r[i].key, r[j].key)
  {
    var ks := SortedKeys(st.Keys);
    EntriesCover(st, ks);
    Entries(st, ks)
  }

  /** The entries for keys `ks`, in that order. */
  function Entries(st: State, ks: seq<string>): (r: seq<KV>)
    requires forall i :: 0 <= i < |ks| ==> ks[i] in st
    ensures |r| == |ks|
    ensures forall i :: 0 <= i < |r| ==> r[i] == KV(ks[i], st[ks[i]])
  {
    seq(|ks|, i requires 0 <= i < |ks| => KV(ks[i], st[ks[i]]))
  }

  /** Every key of `ks` has an entry. */
  lemma EntriesCover(st: State, ks: seq<string>)
    requires forall i :: 0 <= i < |ks| ==> ks[i] in st
    ensures forall k :: k in ks ==> exists i :: 0 <= i < |Entries(st, ks)| && Entries(st, ks)[i].key == k
  {
    var r := Entries(st, ks);
    forall k | k in ks
      ensures exists i :: 0 <= i < |r| && r[i].key == k
    {
      var i :| 0 <= i < |ks| && ks[i] == k;
      assert r[i].key == k;
    }
  }

  /** A stored key smaller than the key at scan position `i` stands at an earlier position. */
  lemma ScanBefore(st: State, i: nat, k: string) returns (j: nat)
    requires i < |Scan(st)| && k in st && Less(k, Scan(st)[i].key)
    ensures j < i && Scan(st)[j].key == k
  {
    var kvs := Scan(st);
    j :| 0 <= j < |kvs| && kvs[j].key == k;
    if j == i {
      assert false;
    } else if j > i {
      assert Less(kvs[i].key, k);
      BelowAntisymmetric(kvs[i].key, k);
      assert false;
    }
  }

  /** The state after the writes of `writes`, applied left to right (a later write to a key wins). */
  function PutAll(st: State, writes: seq<KV>): State
    decreases |writes|
  {
    if writes == [] then st
    else PutAll(st, writes[..|writes| - 1])[writes[|writes| - 1].key := writes[|writes| - 1].value]
  }

  /** The world state of one chaincode: the map it owns, changed only through `PutState`. */
  class WorldState {
    var state: State

    constructor (initial: State)
      ensures state == initial
    {
      state := initial;
    }

    method GetState(key: string) returns (v: string)
      ensures v == ValueAt(state, key)
    {
      v := if key in state then state[key] else "";
    }

    method PutState(key: string, value: string)
      modifies this
      ensures state == old(state)[key := value]
    {
      state := state[key := value];
    }

    method GetStateByRange() returns (kvs: seq<KV>)
      ensures kvs == Scan(state)
    {
      kvs := Scan(state);
    }
  }

  function WriteKeys(writes: seq<KV>): set<string> {
    set i | 0 <= i < |writes| :: writes[i].key
  }

  predicate DistinctKeys(writes: seq<KV>) {
    forall i, j :: 0 <= i < j < |writes| ==> writes[i].key != writes[j].key
  }

  /**
    Writes to distinct keys add exactly those keys, leave each written key holding its value,
    and leave every other key as it was.
   */
  lemma PutAllEffect(st: State, writes: seq<KV>)
    requires DistinctKeys(writes)
    ensures var st' := PutAll(st, writes);
      && st'.Keys == st.Keys + WriteKeys(writes)
      && (forall i :: 0 <= i < |writes| ==> st'[writes[i].key] == writes[i].value)
      && (forall k :: k in st && k !in WriteKeys(writes) ==> st'[k] == st[k])
  {
    PutAllKeys(st, writes);
    forall i | 0 <= i < |writes|
      ensures PutAll(st, writes)[writes[i].key] == writes[i].value
    {
      PutAllAt(st, writes, i);
    }
  }

  /**
    Writes, distinct or not, add exactly their keys; each written key holds one of the values
    written to it, and every other key keeps its value.
   */
  lemma {:induction false} PutAllKeys(st: State, writes: seq<KV>)
    ensures var st' := PutAll(st, writes);
      && st'.Keys == st.Keys + WriteKeys(writes)
      && (forall k :: k in st && k !in WriteKeys(writes) ==> st'[k] == st[k])
      && (forall k :: k in WriteKeys(writes) ==>
            exists i :: 0 <= i < |writes| && writes[i].key == k && st'[k] == writes[i].value)
    decreases |writes|
  {
    if writes != [] {
      var n := |writes| - 1;
      var init, last := writes[..n], writes[n];
      PutAllKeys(st, init);
      var mid := PutAll(st, init);
      var st' := PutAll(st, writes);
      assert st' == mid[last.key := last.value];
      assert WriteKeys(writes) == WriteKeys(init) + {last.key} by {
        assert writes == init + [last];
      }
      forall k | k in WriteKeys(writes)
        ensures exists i :: 0 <= i < |writes| && writes[i].key == k && st'[k] == writes[i].value
      {
        if k == last.key {
          assert writes[n].key == k && st'[k] == writes[n].value;
        } else {
          var i :| 0 <= i < |init| && init[i].key == k && mid[k] == init[i].value;
          assert writes[i] == init[i];
        }
      }
    }
  }

  /** After writes to distinct keys, each written key holds the value written to it. */
  lemma {:induction false} PutAllAt(st: State, writes: seq<KV>, i: nat)
    requires DistinctKeys(writes) && i < |writes|
    ensures writes[i].key in PutAll(st, writes) && PutAll(st, writes)[writes[i].key] == writes[i].value
    decreases |writes|
  {
    var n := |writes| - 1;
    if i < n {
      var init := writes[..n];
      assert DistinctKeys(init);
      PutAllAt(st, init, i);
      assert writes[i] == init[i] && writes[i].key != writes[n].key;
    }
  }

  /** A loop of point writes, in order. */
  method PutEach(ledger: WorldState, writes: seq<KV>)
    modifies ledger
    ensures ledger.state == PutAll(old(ledger.state), writes)
  {
    var i := 0;
    while i < |writes|
      invariant 0 <= i <= |writes|
      invariant ledger.state == PutAll(old(ledger.state), writes[..i])
    {
      assert writes[..i + 1][..i] == writes[..i];
      ledger.PutState(writes[i].key, writes[i].value);
      i := i + 1;
    }
    assert writes[..i] == writes;
  }
}
