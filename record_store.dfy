/** What the two in-memory stores have in common: a sequence of records, a
    `lastId` counter, and the invariant that ties them together. The ghost set
    `issued` holds every id a store has ever held or handed out, so that "a
    deleted id is never reissued" can be stated. */
module RecordStore {
  import opened JsValues
  import opened Seqs

  /** The callback of `find(item => item.Id === id)`. */
  function IdIs(id: int): Record -> bool
  {
    (r: Record) => r.Id == id
  }

  /** `records.findIndex(item => item.Id === id)`, -1 being None. */
  function FindById(records: seq<Record>, id: int): (r: Option<nat>)
    ensures r.Some? ==> r.value < |records| && records[r.value].Id == id
    ensures r.None? <==> forall j :: 0 <= j < |records| ==> records[j].Id != id
  {
    FindFirst(records, IdIs(id))
  }

  predicate UniqueIds(records: seq<Record>)
  {
    forall i, j :: 0 <= i < |records| && 0 <= j < |records| && i != j ==> records[i].Id != records[j].Id
  }

  /** The store's invariant: ids are unique, every stored id was issued, and
      no issued id exceeds the counter. */
  ghost predicate Consistent(records: seq<Record>, lastId: int, issued: set<int>)
  {
    && UniqueIds(records)
    && (forall i :: 0 <= i < |records| ==> "Id" !in records[i].fields)
    && (forall i :: 0 <= i < |records| ==> records[i].Id in issued)
    && (forall id :: id in issued ==> id <= lastId)
  }

  /** The ids present in a sequence of records. */
  ghost function Ids(records: seq<Record>): set<int>
  {
    set i | 0 <= i < |records| :: records[i].Id
  }

  /** `Math.max(...records.map(r => r.Id))` for a non-empty store. */
  function MaxId(records: seq<Record>): (m: int)
    requires |records| > 0
    ensures forall i :: 0 <= i < |records| ==> records[i].Id <= m
    ensures exists i :: 0 <= i < |records| && records[i].Id == m
  {
    if |records| == 1 then records[0].Id
    else
      var rest := MaxId(records[1..]);
      assert forall i :: 1 <= i < |records| ==> records[i] == records[1..][i - 1];
      if records[0].Id >= rest then records[0].Id else rest
  }

  /** A seed store with unique ids and the counter at its largest id is consistent. */
  lemma SeedConsistent(records: seq<Record>)
    requires |records| > 0 && UniqueIds(records)
    requires forall i :: 0 <= i < |records| ==> "Id" !in records[i].fields
    ensures Consistent(records, MaxId(records), Ids(records))
  {
    var m := MaxId(records);
    forall id | id in Ids(records) ensures id <= m {
      var i :| 0 <= i < |records| && records[i].Id == id;
    }
  }

  /** With unique ids, a record is found exactly at its own position. */
  lemma {:induction false} FoundAtOwnPosition(records: seq<Record>, i: nat)
    requires UniqueIds(records) && i < |records|
    ensures FindById(records, records[i].Id) == Some(i)
  {
    var r := FindById(records, records[i].Id);
    assert r.Some?;
    assert r.value == i;
  }

  /** Appending a record whose id is the incremented counter keeps the store
      consistent, and that id was never issued before. */
  lemma {:induction false} AppendKeepsConsistent(records: seq<Record>, lastId: int, issued: set<int>, b: Record)
    requires Consistent(records, lastId, issued)
    requires b.Id == lastId + 1 && "Id" !in b.fields
    ensures b.Id !in issued
    ensures forall i :: 0 <= i < |records| ==> records[i].Id < b.Id
    ensures Consistent(records + [b], lastId + 1, issued + {b.Id})
  {
    var s := records + [b];
    forall i, j | 0 <= i < |s| && 0 <= j < |s| && i != j ensures s[i].Id != s[j].Id {
      if i < |records| && j < |records| {
        assert s[i] == records[i] && s[j] == records[j];
      } else if i < |records| {
        assert records[i].Id in issued;
      } else {
        assert records[j].Id in issued;
      }
    }
  }

  /** Removing one record keeps the store consistent; the counter and the
      issued ids stay as they are. */
  lemma {:induction false} RemoveKeepsConsistent(records: seq<Record>, lastId: int, issued: set<int>, i: nat)
    requires Consistent(records, lastId, issued) && i < |records|
    ensures Consistent(RemoveAt(records, i), lastId, issued)
    ensures Ids(RemoveAt(records, i)) == Ids(records) - {records[i].Id}
  {
    var s := RemoveAt(records, i);
    assert forall j :: 0 <= j < |s| ==> s[j] == records[if j < i then j else j + 1];
    forall id | id in Ids(records) - {records[i].Id} ensures id in Ids(s) {
      var k :| 0 <= k < |records| && records[k].Id == id;
      assert s[if k < i then k else k - 1] == records[k];
    }
  }

  /** Replacing a record by one with the same id keeps the store consistent. */
  lemma {:induction false} ReplaceKeepsConsistent(records: seq<Record>, lastId: int, issued: set<int>, i: nat, b: Record)
    requires Consistent(records, lastId, issued) && i < |records|
    requires b.Id == records[i].Id && "Id" !in b.fields
    ensures Consistent(records[i := b], lastId, issued)
    ensures Ids(records[i := b]) == Ids(records)
  {
    var s := records[i := b];
    assert forall j :: 0 <= j < |s| ==> s[j].Id == records[j].Id;
    forall id | id in Ids(records) ensures id in Ids(s) {
      var k :| 0 <= k < |records| && records[k].Id == id;
      assert s[k].Id == id;
    }
  }
}
