/** The land-certificate (SHM) registry contract: create, read, update, delete
    and enumerate certificates kept as JSON text in the ledger, each record
    under its own certificate id. The contract object has no state of its own;
    every operation works on the ledger it is handed. */
module ShmContract {
  import opened ShmTypes
  import opened ShmJson
  import opened KeyOrder
  import opened WorldState

  // ---------------------------------------------------------------------------
  // Specification of point reads

  /** The key holds a value, and the value is not empty: the existence test
      every operation makes before it acts. */
  predicate Present(state: map<string, Text>, shmId: string) {
    shmId in state && state[shmId] != []
  }

  /** The certificate object the contract builds from its arguments. */
  function NewShm(shmId: string, pemilik: string, alamat: string, luas: string, tanggalTerbit: string): (r: Shm)
    ensures r.shmId == shmId && r.pemilik == pemilik && r.alamat == alamat
    ensures r.luas == luas && r.tanggalTerbit == tanggalTerbit && r.docType == "shm"
  {
    Shm(shmId, pemilik, alamat, luas, tanggalTerbit, "shm")
  }

  /** What reading `shmId` yields: not found for a missing or empty value, a
      parse failure for text that is not a certificate object, otherwise the
      parsed certificate. */
  function Lookup(state: map<string, Text>, shmId: string): (r: Result<Shm>)
    ensures r == Err(NotFound(shmId)) <==> !Present(state, shmId)
    ensures r == Err(Malformed) <==> Present(state, shmId) && Decode(state[shmId]) == None
    ensures r.Ok? ==> Present(state, shmId) && Decode(state[shmId]) == Some(r.value)
    ensures Present(state, shmId) && Decode(state[shmId]).Some? ==> r == Ok(Decode(state[shmId]).value)
  {
    if !Present(state, shmId) then Err(NotFound(shmId))
    else
      match Decode(state[shmId])
      case None => Err(Malformed)
      case Some(rec) => Ok(rec)
  }

  /** Reading a key just written with a certificate gives that certificate. */
  lemma LookupAfterWrite(state: map<string, Text>, shmId: string, rec: Shm)
    ensures Lookup(state[shmId := Encode(rec)], shmId) == Ok(rec)
  {
    EncodeNonEmpty(rec);
    DecodeEncode(rec);
  }

  /** Writing or removing one key leaves what every other key reads unchanged. */
  lemma LookupOtherKey(state: map<string, Text>, shmId: string, other: string, v: Text)
    requires other != shmId
    ensures Lookup(state[shmId := v], other) == Lookup(state, other)
    ensures Lookup(state - {shmId}, other) == Lookup(state, other)
  {
  }

  /** Every certificate in the ledger is stored under its own id. */
  ghost predicate KeyedById(state: map<string, Text>) {
    forall k :: k in state && Decode(state[k]).Some? ==> Decode(state[k]).value.shmId == k
  }

  /** Writing a certificate under its own id keeps every certificate under its own id. */
  lemma WriteKeepsKeyedById(state: map<string, Text>, rec: Shm)
    requires KeyedById(state)
    ensures KeyedById(state[rec.shmId := Encode(rec)])
  {
    DecodeEncode(rec);
  }

  // ---------------------------------------------------------------------------
  // Specification of the enumeration

  /** The entries whose value is not empty, in their original order: the ones
      the enumeration reads. */
  function Live(es: seq<Entry>): (r: seq<Entry>)
    ensures forall e :: e in r <==> e in es && e.1 != []
    decreases |es|
  {
    if es == [] then []
    else
      var n := |es| - 1;
      assert es == es[..n] + [es[n]];
      Live(es[..n]) + if es[n].1 != [] then [es[n]] else []
  }

  /** The certificates the scan loop gathers from `es` when it reads each
      value with `parse`, or the failure that stops it at the first non-empty
      value `parse` rejects. */
  function Collect(es: seq<Entry>, parse: Text -> Option<Shm>): Result<seq<Shm>>
    decreases |es|
  {
    if es == [] then Ok([])
    else
      var n := |es| - 1;
      match Collect(es[..n], parse)
      case Err(e) => Err(e)
      case Ok(rs) =>
        if es[n].1 == [] then Ok(rs)
        else
          match parse(es[n].1)
          case None => Err(Malformed)
          case Some(rec) => Ok(rs + [rec])
  }

  /** The scan loop succeeds exactly when every non-empty value parses, and
      then yields one certificate per non-empty value, in scan order, each the
      parse of that value. */
  lemma {:induction false} CollectLive(es: seq<Entry>, parse: Text -> Option<Shm>)
    ensures Collect(es, parse).Err? ==> Collect(es, parse).error == Malformed
    ensures Collect(es, parse).Ok? <==> forall e :: e in es && e.1 != [] ==> parse(e.1).Some?
    ensures Collect(es, parse).Ok? ==>
      && |Collect(es, parse).value| == |Live(es)|
      && forall i :: 0 <= i < |Live(es)| ==> parse(Live(es)[i].1) == Some(Collect(es, parse).value[i])
    decreases |es|
  {
    if es != [] {
      var n := |es| - 1;
      var front := es[..n];
      assert es == front + [es[n]];
      CollectLive(front, parse);
      if Collect(front, parse).Err? {
        var e :| e in front && e.1 != [] && parse(e.1).None?;
        assert e in es;
      }
    }
  }

  /** One more entry of the scan: what the loop body does with it. An empty
      value is skipped, a certificate is appended, and text that does not
      parse makes the whole scan fail. */
  lemma CollectStep(es: seq<Entry>, k: nat, rs: seq<Shm>, parse: Text -> Option<Shm>)
    requires k < |es| && Collect(es[..k], parse) == Ok(rs)
    ensures es[k].1 == [] ==> Collect(es[..k + 1], parse) == Ok(rs)
    ensures es[k].1 != [] && parse(es[k].1).Some? ==>
      Collect(es[..k + 1], parse) == Ok(rs + [parse(es[k].1).value])
    ensures es[k].1 != [] && parse(es[k].1).None? ==> Collect(es, parse) == Err(Malformed)
  {
    assert es[..k + 1][..k] == es[..k];
    if es[k].1 != [] && parse(es[k].1).None? {
      CollectLive(es, parse);
      assert es[k] in es;
    }
  }

  /** What the enumeration returns for a ledger: the JSON array of every
      certificate in ascending key order, or the parse failure. */
  function ScanAll(state: map<string, Text>): Result<Text> {
    match Collect(Scan(state), Decode)
    case Err(e) => Err(e)
    case Ok(rs) => Ok(EncodeArray(rs))
  }

  /** The keys that hold a non-empty value. */
  function LiveKeys(state: map<string, Text>): set<string> {
    set k | k in state && state[k] != []
  }

  /** An entry whose key comes after every key of an ascending sequence
      extends it in ascending order. */
  lemma AscendingAppend(es: seq<Entry>, x: Entry)
    requires AscendingKeys(es)
    requires forall e :: e in es ==> Precedes(e.0, x.0)
    ensures AscendingKeys(es + [x])
  {
    var r := es + [x];
    forall i, j | 0 <= i < j < |r|
      ensures Precedes(r[i].0, r[j].0)
    {
      if j == |es| {
        assert r[i] in es;
      }
    }
  }

  /** Dropping entries keeps the rest in ascending key order. */
  lemma {:induction false} LiveAscending(es: seq<Entry>)
    requires AscendingKeys(es)
    ensures AscendingKeys(Live(es))
    decreases |es|
  {
    if es != [] {
      var n := |es| - 1;
      var front := es[..n];
      assert AscendingKeys(front);
      LiveAscending(front);
      if es[n].1 != [] {
        forall e | e in Live(front)
          ensures Precedes(e.0, es[n].0)
        {
          var i :| 0 <= i < n && front[i] == e;
        }
        AscendingAppend(Live(front), es[n]);
      }
    }
  }

  /** The live entries of the whole scan are the non-empty values, with their keys. */
  lemma LiveMembers(state: map<string, Text>)
    ensures forall e :: e in Live(Scan(state)) <==> e.0 in LiveKeys(state) && e.1 == state[e.0]
  {
    ScanEntries(state);
  }

  /** Entries that are exactly the live keys with their values have exactly
      the live keys as their keys. */
  lemma LiveKeysOf(state: map<string, Text>, live: seq<Entry>)
    requires forall e :: e in live <==> e.0 in LiveKeys(state) && e.1 == state[e.0]
    ensures KeysOf(live) == LiveKeys(state)
  {
    forall k | k in LiveKeys(state)
      ensures k in KeysOf(live)
    {
      assert (k, state[k]) in live;
      var i :| 0 <= i < |live| && live[i] == (k, state[k]);
    }
    forall k | k in KeysOf(live)
      ensures k in LiveKeys(state)
    {
      var i :| 0 <= i < |live| && live[i].0 == k;
      assert live[i] in live;
    }
  }

  /** The live entries of the whole scan are the live keys, each once, in
      ascending order. */
  lemma LiveScan(state: map<string, Text>)
    ensures forall e :: e in Live(Scan(state)) <==> e.0 in LiveKeys(state) && e.1 == state[e.0]
    ensures AscendingKeys(Live(Scan(state)))
    ensures |Live(Scan(state))| == |LiveKeys(state)|
  {
    var es := Scan(state);
    var live := Live(es);
    ScanEntries(state);
    LiveAscending(es);
    LiveMembers(state);
    AscendingKeysCount(live);
    LiveKeysOf(state, live);
  }

  /** When the enumeration succeeds, its text parses back to one certificate
      per non-empty key, in ascending key order, each the one stored there. */
  lemma ScanAllContents(state: map<string, Text>)
    requires ScanAll(state).Ok?
    ensures DecodeArray(ScanAll(state).value).Some?
    ensures var rs := DecodeArray(ScanAll(state).value).value;
            var live := Live(Scan(state));
            && |rs| == |live| == |LiveKeys(state)|
            && AscendingKeys(live)
            && forall i :: 0 <= i < |rs| ==>
                 live[i].0 in LiveKeys(state) && Decode(state[live[i].0]) == Some(rs[i])
  {
    var rs := Collect(Scan(state), Decode).value;
    CollectLive(Scan(state), Decode);
    DecodeArrayEncodeArray(rs);
    LiveScan(state);
    var live := Live(Scan(state));
    forall i | 0 <= i < |rs|
      ensures live[i].0 in LiveKeys(state) && Decode(state[live[i].0]) == Some(rs[i])
    {
      assert live[i] in live;
    }
  }

  /** The enumeration fails exactly when some non-empty value is not a
      certificate object. */
  lemma ScanAllFails(state: map<string, Text>)
    ensures ScanAll(state).Err? <==> exists k :: k in LiveKeys(state) && Decode(state[k]).None?
    ensures ScanAll(state).Err? ==> ScanAll(state).error == Malformed
  {
    CollectLive(Scan(state), Decode);
    ScanEntries(state);
    if k :| k in LiveKeys(state) && Decode(state[k]).None? {
      assert (k, state[k]) in Scan(state);
    }
  }

  // ---------------------------------------------------------------------------
  // The contract's transactions

  /** Ledger initialisation: only logs, and writes nothing. */
  method InitLedger(stub: Stub)
    ensures stub.state == old(stub.state)
  {
  }

  /** Writes the certificate built from the arguments under `shmId`, replacing
      any value already there, and returns it. */
  method CreateShm(stub: Stub, shmId: string, pemilik: string, alamat: string, luas: string, tanggalTerbit: string)
    returns (shm: Shm)
    modifies stub
    ensures shm == NewShm(shmId, pemilik, alamat, luas, tanggalTerbit)
    ensures stub.state == old(stub.state)[shmId := Encode(shm)]
    ensures Lookup(stub.state, shmId) == Ok(shm)
    ensures KeyedById(old(stub.state)) ==> KeyedById(stub.state)
  {
    shm := NewShm(shmId, pemilik, alamat, luas, tanggalTerbit);
    stub.PutState(shmId, Encode(shm));
    LookupAfterWrite(old(stub.state), shmId, shm);
    if KeyedById(old(stub.state)) {
      WriteKeepsKeyedById(old(stub.state), shm);
    }
  }

  /** The certificate stored under `shmId`. */
  method ReadShm(stub: Stub, shmId: string) returns (r: Result<Shm>)
    ensures r == Lookup(stub.state, shmId)
  {
    var data := stub.GetState(shmId);
    if data.None? || |data.value| == 0 {
      return Err(NotFound(shmId));
    }
    var rec := Decode(data.value);
    if rec.None? {
      return Err(Malformed);
    }
    return Ok(rec.value);
  }

  /** Replaces the whole certificate under an existing `shmId` with the one
      built from the arguments; nothing of the old record survives. */
  method UpdateShm(stub: Stub, shmId: string, pemilik: string, alamat: string, luas: string, tanggalTerbit: string)
    returns (r: Result<Shm>)
    modifies stub
    ensures !Present(old(stub.state), shmId) ==>
      r == Err(NotFound(shmId)) && stub.state == old(stub.state)
    ensures Present(old(stub.state), shmId) ==>
      && r == Ok(NewShm(shmId, pemilik, alamat, luas, tanggalTerbit))
      && stub.state == old(stub.state)[shmId := Encode(r.value)]
      && Lookup(stub.state, shmId) == r
    ensures KeyedById(old(stub.state)) ==> KeyedById(stub.state)
  {
    var current := stub.GetState(shmId);
    if current.None? || |current.value| == 0 {
      return Err(NotFound(shmId));
    }
    var updated := NewShm(shmId, pemilik, alamat, luas, tanggalTerbit);
    stub.PutState(shmId, Encode(updated));
    LookupAfterWrite(old(stub.state), shmId, updated);
    if KeyedById(old(stub.state)) {
      WriteKeepsKeyedById(old(stub.state), updated);
    }
    return Ok(updated);
  }

  /** Removes an existing `shmId` and returns the confirmation message. */
  method DeleteShm(stub: Stub, shmId: string) returns (r: Result<string>)
    modifies stub
    ensures !Present(old(stub.state), shmId) ==>
      r == Err(NotFound(shmId)) && stub.state == old(stub.state)
    ensures Present(old(stub.state), shmId) ==>
      && r == Ok("Sertifikat " + shmId + " berhasil dihapus")
      && stub.state == old(stub.state) - {shmId}
      && Lookup(stub.state, shmId) == Err(NotFound(shmId))
    ensures KeyedById(old(stub.state)) ==> KeyedById(stub.state)
  {
    var current := stub.GetState(shmId);
    if current.None? || |current.value| == 0 {
      return Err(NotFound(shmId));
    }
    stub.DeleteState(shmId);
    return Ok("Sertifikat " + shmId + " berhasil dihapus");
  }

  /** The loop of the enumeration: pulls entries from a fresh cursor until it
      reports the end, parsing every non-empty value, and closes the cursor on
      the step that reports the end. The cursor is pulled once per entry,
      plus one final step when the last entry does not report the end. A value
      that does not parse ends the loop with the cursor still open. */
  method ReadAll(cursor: StateIterator) returns (r: Result<seq<Shm>>)
    requires cursor.Valid() && cursor.pos == 0
    requires cursor.nextCalls == 0 && !cursor.doneReported && cursor.closeCount == 0
    modifies cursor
    ensures r == Collect(cursor.entries, Decode)
    ensures r.Ok? ==>
      && cursor.doneReported && cursor.closeCount == 1 && cursor.pos == |cursor.entries|
      && cursor.nextCalls == |cursor.entries| + (if cursor.lastCarriesDone && cursor.entries != [] then 0 else 1)
    ensures r.Err? ==> cursor.closeCount == 0
  {
    var results: seq<Shm> := [];
    ghost var entries := cursor.entries;
    while true
      invariant cursor.Valid() && cursor.entries == entries
      invariant !cursor.doneReported && cursor.closeCount == 0
      invariant cursor.nextCalls == cursor.pos
      invariant cursor.lastCarriesDone && entries != [] ==> cursor.pos < |entries|
      invariant Collect(entries[..cursor.pos], Decode) == Ok(results)
      decreases |entries| - cursor.pos
    {
      ghost var before := cursor.pos;
      var value, done := cursor.Next();
      if value.Some? {
        CollectStep(entries, before, results, Decode);
        if value.value.1 != [] {
          var rec := Decode(value.value.1);
          if rec.None? {
            return Err(Malformed);
          }
          results := results + [rec.value];
        }
      }
      if done {
        assert cursor.nextCalls == |entries| + (if cursor.lastCarriesDone && entries != [] then 0 else 1);
        cursor.Close();
        assert entries[..cursor.pos] == entries;
        return Ok(results);
      }
    }
  }

  /** Scans the whole key space and returns the JSON array of the
      certificates in ascending key order. The ledger is not written: the
      method modifies nothing that existed before it. */
  method GetAllShm(stub: Stub) returns (r: Result<Text>, ghost it: StateIterator)
    ensures stub.state == old(stub.state)
    ensures r == ScanAll(stub.state)
    ensures fresh(it)
    ensures it.entries == Scan(stub.state) && it.lastCarriesDone == stub.lastCarriesDone
    ensures r.Ok? ==> && it.doneReported && it.closeCount == 1 && it.pos == |it.entries|
                      && it.nextCalls == |it.entries| + (if it.lastCarriesDone && it.entries != [] then 0 else 1)
    ensures r.Err? ==> it.closeCount == 0
  {
    var cursor := stub.GetStateByRange();
    it := cursor;
    var results := ReadAll(cursor);
    match results
    case Err(e) => r := Err(e);
    case Ok(rs) => r := Ok(EncodeArray(rs));
  }
}
