# SHM land-certificate contract, modelled in Dafny

This project models the Hyperledger Fabric chaincode `SHMContract`, a small
registry of Indonesian land certificates (Sertifikat Hak Milik, "SHM"). The
contract keeps each certificate as JSON text in the ledger's key-value world
state, under the certificate id. It offers five transactions plus an
initialisation hook:

- `initLedger` only logs;
- `createSHM` builds the record `{shmId, pemilik, alamat, luas, tanggalTerbit,
  docType: "shm"}` from its arguments and writes it under `shmId`, silently
  replacing any value already there;
- `readSHM` fails when the key is absent or holds an empty value, and otherwise
  parses the stored text;
- `updateSHM` makes the same existence test and then overwrites the whole
  record with one built from the new arguments;
- `deleteSHM` makes the same existence test, removes the key and returns
  `Sertifikat <id> berhasil dihapus`;
- `getAllSHM` scans the whole key space with a range cursor, parses every
  non-empty value in scan order and returns the JSON array of the results.

The contract has no certificate status, ownership history, transfer,
revocation, duplicate-id rejection, input validation or seed data:
`createSHM` overwrites an existing certificate, and `luas` and the other
fields are stored as given.

The model is in five modules:

- `ShmTypes` (`shm_types.dfy`) holds the certificate record, `Option`,
  `Result` and the two error kinds. `NotFound` covers a missing or empty value.
  `Malformed` covers stored text the parser rejects.
- `ShmJson` (`shm_json.dfy`) covers the JSON the contract writes and reads:
  - what `JSON.stringify` writes for a certificate and for an array of them,
    with its string escaping (`\"`, `\\`, `\b`, `\f`, `\n`, `\r`, `\t`, and
    other control characters as `\u00xx`);
  - a parser for that layout that accepts every JSON string escape except
    `\u` escapes of UTF-16 surrogates.

  Both round trips are proved.
- `KeyOrder` (`key_order.dfy`) defines the order of the range scan.
  - Keys are compared lexicographically by code point. This is the byte order
    of their UTF-8 encodings, the order the ledger uses.
  - The order is proved to be a strict total order.
  - The sorted listing of a key set is built from its least element.
- `WorldState` (`world_state.dfy`) holds the ledger stub and its cursor.
  - The stub is a class whose `state` field is a map from key to text. It has
    `GetState`, `PutState`, `DeleteState` and `GetStateByRange`.
  - The cursor is a class with a position, `Next` and `Close`. Ghost counters
    record how often it was pulled and closed.
  - Fabric client libraries differ on when the cursor reports the end. Either
    the step that hands out the last entry does, or a further empty step does.
    The flag `lastCarriesDone` covers both.
- `ShmContract` (`shm_contract.dfy`) holds the six transactions, as methods
  over the stub. They are specified by functions on the ledger map: `Lookup`
  for point reads, and `Scan`, `Live`, `Collect` and `ScanAll` for the
  enumeration. Lemmas about those functions prove:
  - read-after-write;
  - frame properties;
  - the ordering and count of the enumeration;
  - its failure condition.

`getAllSHM` has no error handling around `JSON.parse`. A stored value that does
not parse aborts the scan, and the cursor is never closed on that path.
`ReadAll` and `GetAllShm` state this explicitly: on failure the close count
stays 0.

## Model

| member | source | states |
|---|---|---|
| ShmContract.InitLedger | chaincode/lib/shm-contract.js:7-9 | the ledger is unchanged |
| ShmContract.CreateShm | chaincode/lib/shm-contract.js:11-23 | it returns exactly the record with the caller's fields and docType "shm"; the new ledger is the old one with that record's JSON under `shmId`, whatever was there before; reading `shmId` now yields the record; every certificate stays stored under its own id |
| ShmContract.ReadShm | chaincode/lib/shm-contract.js:25-31 | the result is `Lookup` of the ledger: NotFound for an absent or empty value, Malformed for text that does not parse, otherwise the parsed certificate |
| ShmContract.Lookup | chaincode/lib/shm-contract.js:25-31 | NotFound exactly when the key is absent or empty; Malformed exactly when present and unparsable; a present value that parses gives success with its parse, and success only ever carries the parse of the stored text |
| ShmContract.UpdateShm | chaincode/lib/shm-contract.js:33-50 | an absent or empty key gives NotFound and leaves the ledger unchanged; otherwise it returns the new record, the ledger changes at `shmId` only and holds the new record's JSON there (no old field survives), and reading it yields the new record |
| ShmContract.DeleteShm | chaincode/lib/shm-contract.js:52-60 | an absent or empty key gives NotFound and leaves the ledger unchanged; otherwise it returns the confirmation text, the ledger loses exactly `shmId`, and a later read gives NotFound |
| ShmContract.Present | chaincode/lib/shm-contract.js:27 | the existence test every operation makes (also lines 35 and 54): the key holds a value and the value is not empty; an absent key and an empty value are treated alike |
| ShmContract.NewShm | chaincode/lib/shm-contract.js:12-19 | the record literal of `createSHM` and of `updateSHM` (lines 39-46): each field is the caller's argument unchanged and `docType` is "shm" |
| ShmJson.Encode | chaincode/lib/shm-contract.js:21 | `JSON.stringify` of a certificate, also at line 48: the six members in declaration order with no whitespace, each value a quoted string with `"` and `\` escaped, `\b \f \n \r \t` as short escapes and other control characters as lower-case `\u00xx`; ShmJson.DecodeEncode proves that parsing it gives back the certificate |
| ShmJson.Decode | chaincode/lib/shm-contract.js:30 | `JSON.parse` of a stored value, also at line 70: accepts exactly the layout `Encode` writes, with any JSON string escape except `\u` escapes of UTF-16 surrogates inside the values, and nothing after the closing brace; anything else is rejected; ShmJson.DecodeEncode proves it inverts `Encode` |
| ShmJson.EncodeArray | chaincode/lib/shm-contract.js:80 | `JSON.stringify` of the results array: the certificates' texts in order, separated by commas, between brackets; ShmJson.DecodeArrayEncodeArray proves that parsing it gives back the list |
| KeyOrder.Precedes | chaincode/lib/shm-contract.js:64 | the order of the range scan: lexicographic by code point, a proper prefix first; KeyOrder.PrecedesIrreflexive, KeyOrder.PrecedesTransitive and KeyOrder.PrecedesTotal prove it a strict total order |
| ShmContract.LookupAfterWrite | chaincode/lib/shm-contract.js:21-31 | reading a key just written with a certificate's JSON yields that certificate |
| ShmContract.LookupOtherKey | chaincode/lib/shm-contract.js:48-58 | writing or removing one key leaves what every other key reads unchanged |
| ShmContract.WriteKeepsKeyedById | chaincode/lib/shm-contract.js:11-21 | writing a certificate under its own id keeps every parsable certificate stored under its own id |
| ShmContract.Collect | chaincode/lib/shm-contract.js:66-72 | the loop as a function of the entries handed out: empty values are skipped, every other value is parsed and appended in order, and the first value that does not parse makes the result Malformed; its properties are proved in ShmContract.CollectLive and ShmContract.CollectStep |
| ShmContract.ScanAll | chaincode/lib/shm-contract.js:62-80 | the result of `getAllSHM` for a ledger: the loop over the full scan, then the JSON array of the certificates gathered, or the parse failure; its properties are proved in ShmContract.ScanAllContents and ShmContract.ScanAllFails |
| ShmContract.ReadAll | chaincode/lib/shm-contract.js:66-78 | the loop's result is `Collect` of the cursor's entries; on success the cursor reported the end, was closed exactly once and only after its last pull (a closed cursor cannot be pulled, so the close follows the step that reports the end), handed out every entry and was pulled once per entry plus one extra step unless the last entry reported the end; on failure it was not closed |
| ShmContract.GetAllShm | chaincode/lib/shm-contract.js:62-81 | the ledger is unchanged; the result is `ScanAll` of the ledger; the cursor is a new one over the whole ledger's scan with the ledger's end-reporting convention, and the pull and close counts above hold, the close coming after the last pull |
| ShmContract.CollectLive | chaincode/lib/shm-contract.js:66-72 | the scan succeeds exactly when every non-empty value parses; a failure is Malformed; on success there is one certificate per non-empty value, in scan order, each the parse of that value |
| ShmContract.CollectStep | chaincode/lib/shm-contract.js:67-72 | one loop step: an empty value is skipped, a parsed value is appended, and an unparsable value makes the whole scan fail |
| ShmContract.LiveAscending | chaincode/lib/shm-contract.js:64-72 | skipping empty values keeps the entries in ascending key order |
| ShmContract.LiveScan | chaincode/lib/shm-contract.js:64-72 | the entries the loop reads are exactly the non-empty keys with their values, in ascending key order, one per non-empty key |
| ShmContract.ScanAllContents | chaincode/lib/shm-contract.js:62-80 | a successful result parses back as a JSON array with exactly as many certificates as there are non-empty keys, in ascending key order, each the parse of that key's stored value |
| ShmContract.ScanAllFails | chaincode/lib/shm-contract.js:69-71 | the enumeration fails exactly when some non-empty value does not parse, and then with Malformed |
| ShmJson.DecodeEncode | chaincode/lib/shm-contract.js:21-30 | parsing the JSON written for a certificate gives back that certificate |
| ShmJson.ParseCharsEscape | chaincode/lib/shm-contract.js:21-30 | the string parser reads any escaped string back up to its closing quote and leaves the rest of the text |
| ShmJson.EncodeNonEmpty | chaincode/lib/shm-contract.js:21-27 | the JSON written for a certificate is never empty, so the existence test finds every written record |
| ShmJson.DecodeArrayEncodeArray | chaincode/lib/shm-contract.js:80 | parsing the JSON array written for a list of certificates gives back that list |
| KeyOrder.PrecedesTotal | chaincode/lib/shm-contract.js:64 | any two distinct keys are ordered one way or the other |
| KeyOrder.SortedKeys | chaincode/lib/shm-contract.js:64 | the sorted listing holds every key of the set exactly once, in strictly ascending order |
| WorldState.Scan | chaincode/lib/shm-contract.js:64 | what `getStateByRange('', '')` hands out: the entries of the whole ledger, keys in ascending order, each with its stored value; its properties are proved in WorldState.ScanEntries |
| WorldState.ScanEntries | chaincode/lib/shm-contract.js:64 | the full range scan yields every key of the ledger once with its value, in ascending key order |
| WorldState.AscendingKeysCount | chaincode/lib/shm-contract.js:64 | entries with strictly ascending keys have as many distinct keys as entries |
| WorldState.Stub.GetState | chaincode/lib/shm-contract.js:26 | the stored value for a present key, nothing for an absent one |
| WorldState.Stub.PutState | chaincode/lib/shm-contract.js:21 | the ledger changes at that key only, to the given value |
| WorldState.Stub.DeleteState | chaincode/lib/shm-contract.js:58 | the ledger loses that key only |
| WorldState.Stub.GetStateByRange | chaincode/lib/shm-contract.js:64 | a new cursor at the start of the full ascending scan, not yet pulled or closed |
| WorldState.StateIterator.Next | chaincode/lib/shm-contract.js:67 | only an open cursor can be pulled; it hands out the next entry and advances, reporting the end with the last entry or on a further empty step; counts the pull |
| WorldState.StateIterator.Close | chaincode/lib/shm-contract.js:75 | counts the close |

## Left out

- The Fabric `Contract` base class, the transaction context and async/await. The transactions are synchronous methods over a stub object.
- The `console.info` logging in `initLedger`.
- `Buffer` and UTF-8. Ledger values are modelled as character text. An empty buffer is empty text.
- The exact error message texts. Both not-found messages are one `NotFound` value carrying the id. A thrown `JSON.parse` error is `Malformed`.
- Transaction semantics: read-your-writes within a transaction, endorsement, commit and concurrent submitters.
- Fabric reserves keys starting with U+0000 for composite keys and leaves them out of a simple range scan. The model scans every key.
- Range scans other than the full one `('', '')`, and paging.
- ShmJson.Decode: accepts only the layout the contract writes. That layout has no whitespace, the six members in declaration order, and string values. `JSON.parse` also accepts other valid JSON, including other member orders, whitespace, extra members, non-string values and values that are not objects. The model treats all of these as `Malformed`, where `readSHM` would return the parsed value and `getAllSHM` would include it.
- ShmJson.Decode: also refuses `\u` escapes of UTF-16 surrogates, which `JSON.parse` combines into one character. Model strings are Unicode scalar values, so the serializer never writes such escapes.
- ShmContract.ReadShm: for stored text outside the layout above, the model returns `Malformed` where the source returns the parsed value.
- ShmContract.GetAllShm: the same applies to its result. Stored values outside the layout make it fail instead of being re-serialized.
