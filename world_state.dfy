/** The ledger the contract runs against: a key-value world state with point
    reads and writes, deletion, and a range scan that hands out a cursor. */
module WorldState {
  import opened ShmTypes
  import opened KeyOrder

  /** A key and the value stored under it, as the range scan yields them. */
  type Entry = (string, Text)

  /** Each entry's key comes strictly before the keys of the entries after it. */
  predicate AscendingKeys(es: seq<Entry>) {
    forall i, j :: 0 <= i < j < |es| ==> Precedes(es[i].0, es[j].0)
  }

  /** The entries of the whole key space, in the order a range scan over all
      keys yields them. */
  function Scan(state: map<string, Text>): seq<Entry> {
    var keys := SortedKeys(state.Keys);
    seq(|keys|, i requires 0 <= i < |keys| => (keys[i], state[keys[i]]))
  }

  /** The scan yields every key of the ledger once, with its value, in
      ascending key order. */
  lemma ScanEntries(state: map<string, Text>)
    ensures |Scan(state)| == |state|
    ensures forall e :: e in Scan(state) <==> e.0 in state && e.1 == state[e.0]
    ensures AscendingKeys(Scan(state))
  {
    var keys := SortedKeys(state.Keys);
    var es := Scan(state);
    assert forall i :: 0 <= i < |es| ==> es[i] == (keys[i], state[keys[i]]);
    forall e: Entry | e.0 in state && e.1 == state[e.0]
      ensures e in es
    {
      var i :| 0 <= i < |keys| && keys[i] == e.0;
      assert es[i] == e;
    }
  }

  /** The cursor a range scan returns. `pos` counts the entries handed out.
      Depending on the ledger's client library, the step that hands out the
      last entry also reports `done` (`lastCarriesDone`), or a further step
      reports `done` with no entry. The ghost fields count the calls made. */
  class StateIterator {
    const entries: seq<Entry>
    const lastCarriesDone: bool
    var pos: nat
    ghost var nextCalls: nat
    ghost var doneReported: bool
    ghost var closeCount: nat

    ghost predicate Valid()
      reads this
    {
      pos <= |entries|
    }

    constructor (entries: seq<Entry>, lastCarriesDone: bool)
      ensures Valid()
      ensures this.entries == entries && this.lastCarriesDone == lastCarriesDone
      ensures pos == 0 && nextCalls == 0 && !doneReported && closeCount == 0
    {
      this.entries := entries;
      this.lastCarriesDone := lastCarriesDone;
      pos := 0;
      nextCalls := 0;
      doneReported := false;
      closeCount := 0;
    }

    /** One step of the cursor: the next entry, if any, and whether the scan
        is over. A closed cursor can no longer be pulled. */
    method Next() returns (value: Option<Entry>, done: bool)
      requires Valid() && closeCount == 0
      modifies this`pos, this`nextCalls, this`doneReported
      ensures Valid()
      ensures old(pos) < |entries| ==>
        && value == Some(entries[old(pos)])
        && pos == old(pos) + 1
        && done == (lastCarriesDone && pos == |entries|)
      ensures old(pos) == |entries| ==> value == None && done && pos == old(pos)
      ensures nextCalls == old(nextCalls) + 1
      ensures doneReported == (old(doneReported) || done)
    {
      if pos < |entries| {
        value := Some(entries[pos]);
        pos := pos + 1;
        done := lastCarriesDone && pos == |entries|;
      } else {
        value := None;
        done := true;
      }
      nextCalls := nextCalls + 1;
      doneReported := doneReported || done;
    }

    /** Releases the cursor. */
    method Close()
      modifies this`closeCount
      ensures closeCount == old(closeCount) + 1
    {
      closeCount := closeCount + 1;
    }
  }

  /** The ledger as the contract sees it through its transaction context. */
  class Stub {
    var state: map<string, Text>
    const lastCarriesDone: bool

    constructor (state: map<string, Text>, lastCarriesDone: bool)
      ensures this.state == state && this.lastCarriesDone == lastCarriesDone
    {
      this.state := state;
      this.lastCarriesDone := lastCarriesDone;
    }

    /** The value under `key`, or nothing when the key is absent. */
    method GetState(key: string) returns (v: Option<Text>)
      ensures key in state ==> v == Some(state[key])
      ensures key !in state ==> v == None
    {
      v := if key in state then Some(state[key]) else None;
    }

    /** Stores `value` under `key`, replacing what was there. */
    method PutState(key: string, value: Text)
      modifies this`state
      ensures state == old(state)[key := value]
    {
      state := state[key := value];
    }

    /** Removes `key`. */
    method DeleteState(key: string)
      modifies this`state
      ensures state == old(state) - {key}
    {
      state := state - {key};
    }

    /** A cursor over the whole key space, in ascending key order: the scan
        with empty start and end keys. */
    method GetStateByRange() returns (it: StateIterator)
      ensures fresh(it) && it.Valid()
      ensures it.entries == Scan(state) && it.lastCarriesDone == lastCarriesDone
      ensures it.pos == 0 && it.nextCalls == 0 && !it.doneReported && it.closeCount == 0
    {
      it := new StateIterator(Scan(state), lastCarriesDone);
    }
  }

  /** The keys of the entries of `es`. */
  function KeysOf(es: seq<Entry>): (r: set<string>)
    ensures forall i :: 0 <= i < |es| ==> es[i].0 in r
    ensures forall k :: k in r ==> exists i :: 0 <= i < |es| && es[i].0 == k
    decreases |es|
  {
    if es == [] then {} else KeysOf(es[..|es| - 1]) + {es[|es| - 1].0}
  }

  /** With ascending keys, the last key does not occur earlier. */
  lemma LastKeyIsNew(es: seq<Entry>)
    requires AscendingKeys(es) && es != []
    ensures es[|es| - 1].0 !in KeysOf(es[..|es| - 1])
  {
    var n := |es| - 1;
    var x := es[n].0;
    if x in KeysOf(es[..n]) {
      var i :| 0 <= i < n && es[..n][i].0 == x;
      assert Precedes(es[i].0, x);
      PrecedesIrreflexive(x);
    }
  }

  /** Entries with strictly ascending keys have as many distinct keys as entries. */
  lemma {:induction false} AscendingKeysCount(es: seq<Entry>)
    requires AscendingKeys(es)
    ensures |KeysOf(es)| == |es|
    decreases |es|
  {
    if es != [] {
      var front := es[..|es| - 1];
      assert AscendingKeys(front);
      AscendingKeysCount(front);
      LastKeyIsNew(es);
      assert KeysOf(es) - {es[|es| - 1].0} == KeysOf(front);
    }
  }
}
