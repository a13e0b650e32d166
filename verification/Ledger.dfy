/** internal/ledger: the ledger document and what loading its file yields. */
module Ledger {
  import opened Prelude

  const LEDGER_FORMAT := "indexjack-ledger/1"

  datatype Entry = Entry(candidateId: string, policyName: string, policySource: string, policyVersion: string,
                         policyDigest: string)

  datatype Ledger = Ledger(format: string, entries: seq<Entry>)

  /* The ledger file: absent, unreadable as a ledger, or a ledger document. */
  datatype LedgerFile = Missing | Corrupt | Stored(ledger: Ledger)

  const FRESH := Ledger(LEDGER_FORMAT, [])

  predicate Approved(l: Ledger, candidateId: string)
  {
    exists i :: 0 <= i < |l.entries| && l.entries[i].candidateId == candidateId
  }

  method IsApproved(l: Ledger, candidateId: string) returns (r: bool)
    ensures r == Approved(l, candidateId)
  {
    for i := 0 to |l.entries|
      invariant forall k :: 0 <= k < i ==> l.entries[k].candidateId != candidateId
    {
      if l.entries[i].candidateId == candidateId {
        return true;
      }
    }
    r := false;
  }

  /* The ledger a run starts from: a missing file is created fresh, an unreadable one refused. */
  function LoadedFrom(f: LedgerFile): Option<Ledger>
  {
    match f
    case Missing => Some(FRESH)
    case Corrupt => None
    case Stored(l) => if l.format == LEDGER_FORMAT then Some(l) else None
  }

  /* The file once a load has been attempted. */
  function FileAfterLoad(f: LedgerFile): LedgerFile
  {
    if f == Missing then Stored(FRESH) else f
  }
}
