/** The in-memory receipt store: an append-only list of processed receipts, each
    tagged with an identifier, and a lookup that scans the list in insertion order
    for the first record with a given identifier and scores it. */
module Store {
  import opened Wrappers
  import opened Receipts
  import Points

  /** The one error a lookup can report: no receipt carries the identifier. */
  datatype Error = NotFound(receiptId: string)

  /** The identifiers of the stored records. */
  function Ids(records: seq<ProcessedReceipt>): (ids: set<string>)
    ensures forall i :: 0 <= i < |records| ==> records[i].receiptId in ids
    ensures forall id :: id in ids ==> exists i :: 0 <= i < |records| && records[i].receiptId == id
  {
    set i | 0 <= i < |records| :: records[i].receiptId
  }

  /** No two records share an identifier. */
  ghost predicate UniqueIds(records: seq<ProcessedReceipt>) {
    forall i, j :: 0 <= i < j < |records| ==> records[i].receiptId != records[j].receiptId
  }

  /** The position of the first record carrying `id`, if any. */
  function FirstIndex(records: seq<ProcessedReceipt>, id: string): (k: Option<nat>)
    ensures k.Some? ==> k.value < |records| && records[k.value].receiptId == id &&
                        forall i :: 0 <= i < k.value ==> records[i].receiptId != id
    ensures k.None? ==> forall i :: 0 <= i < |records| ==> records[i].receiptId != id
  {
    if records == [] then None
    else if records[0].receiptId == id then Some(0)
    else match FirstIndex(records[1..], id)
      case None => None
      case Some(k) => Some(k + 1)
  }

  /** What a points request answers: the score of the first record carrying `id`,
      or not-found. */
  function Lookup(records: seq<ProcessedReceipt>, id: string): (r: Result<int, Error>)
    ensures r.Success? ==> exists i :: 0 <= i < |records| && records[i].receiptId == id &&
                                     r.value == Points.Score(records[i].receipt)
    ensures r.Failure? ==> r.error == NotFound(id) &&
                           forall i :: 0 <= i < |records| ==> records[i].receiptId != id
  {
    match FirstIndex(records, id)
    case None => Failure(NotFound(id))
    case Some(k) => Success(Points.Score(records[k].receipt))
  }

  /** A lookup fails exactly when no record carries the identifier: an unknown
      identifier is never answered with a score. */
  lemma LookupFailsIffUnknown(records: seq<ProcessedReceipt>, id: string)
    ensures Lookup(records, id).Failure? <==> id !in Ids(records)
    ensures Lookup(records, id).Failure? ==> Lookup(records, id).error == NotFound(id)
  {
    if id in Ids(records) {
      var i :| 0 <= i < |records| && records[i].receiptId == id;
    }
  }

  /** With unique identifiers, looking up a stored record's identifier scores that
      very record. */
  lemma LookupStored(records: seq<ProcessedReceipt>, i: nat)
    requires UniqueIds(records) && i < |records|
    ensures Lookup(records, records[i].receiptId) == Success(Points.Score(records[i].receipt))
  {
    var k := FirstIndex(records, records[i].receiptId);
    assert k.Some?;
    assert !(k.value < i) && !(i < k.value);
  }

  /** Appending a record leaves every earlier answer as it was, answers the new
      identifier with the new record's score if it was unknown, and still answers
      not-found for every other identifier. */
  lemma LookupAfterAppend(records: seq<ProcessedReceipt>, p: ProcessedReceipt, id: string)
    ensures Lookup(records + [p], id) ==
            if id in Ids(records) then Lookup(records, id)
            else if id == p.receiptId then Success(Points.Score(p.receipt))
            else Failure(NotFound(id))
  {
    var all := records + [p];
    assert forall i :: 0 <= i < |records| ==> all[i] == records[i];
    var k := FirstIndex(records, id);
    var k' := FirstIndex(all, id);
    if k.Some? {
      assert k'.Some?;
      assert !(k'.value < k.value) && !(k.value < k'.value);
    } else if id == p.receiptId {
      assert all[|records|] == p;
      assert k'.Some? && k'.value == |records|;
    } else {
      assert all[|records|] == p;
      assert k'.None?;
    }
  }

  /** Appending a record with a fresh identifier keeps identifiers unique. */
  lemma AppendFreshKeepsUnique(records: seq<ProcessedReceipt>, p: ProcessedReceipt)
    requires UniqueIds(records) && p.receiptId !in Ids(records)
    ensures UniqueIds(records + [p])
    ensures Ids(records + [p]) == Ids(records) + {p.receiptId}
  {
    var all := records + [p];
    assert forall i :: 0 <= i < |records| ==> all[i] == records[i];
    assert all[|records|] == p;
  }

  /** The process-wide list of processed receipts. */
  class ReceiptStore {
    var records: seq<ProcessedReceipt>

    /** Every stored record has its own identifier. */
    ghost predicate Valid()
      reads this
    {
      UniqueIds(records)
    }

    /** The store starts empty. */
    constructor ()
      ensures Valid() && records == []
    {
      records := [];
    }

    /** Tags `receipt` with the fresh identifier `newId`, appends it at the end and
        answers the identifier; the records already stored are unchanged. */
    method ProcessReceipt(receipt: Receipt, newId: string) returns (id: string)
      requires Valid() && newId !in Ids(records)
      modifies this
      ensures Valid()
      ensures id == newId
      ensures records == old(records) + [ProcessedReceipt(receipt, newId)]
      ensures Ids(records) == old(Ids(records)) + {newId}
    {
      AppendFreshKeepsUnique(records, ProcessedReceipt(receipt, newId));
      records := records + [ProcessedReceipt(receipt, newId)];
      id := newId;
    }

    /** Scans the records in insertion order and scores the first one carrying
        `receiptId`, or reports not-found when none does. */
    method GetPoints(receiptId: string) returns (result: Result<int, Error>)
      ensures result == Lookup(records, receiptId)
      ensures result.Failure? <==> receiptId !in Ids(records)
    {
      LookupFailsIffUnknown(records, receiptId);
      var i := 0;
      while i < |records|
        invariant 0 <= i <= |records|
        invariant forall k :: 0 <= k < i ==> records[k].receiptId != receiptId
      {
        if records[i].receiptId == receiptId {
          var points := Points.CalculatePoints(records[i].receipt);
          var k := FirstIndex(records, receiptId);
          assert k.Some? && !(k.value < i) && !(i < k.value);
          return Success(points);
        }
        i := i + 1;
      }
      return Failure(NotFound(receiptId));
    }
  }
}
