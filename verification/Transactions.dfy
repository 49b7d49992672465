// What the database methods are built from: result sets, the reconciliation of ids,
// transactions, and the insertion of long lists in batches.

module Transactions {
  import opened Basics
  import opened Schema

  // ---------- Result rows and id reconciliation ----------

  // The rows of a result set, in whatever order the database chooses.
  method Fetch<T(==)>(rows: set<T>) returns (r: seq<T>)
    ensures Elements(r) == rows && Distinct(r) && |r| == |rows|
  {
    r := [];
    var left := rows;
    while left != {}
      invariant Elements(r) + left == rows && Elements(r) !! left
      invariant Distinct(r)
      decreases |left|
    {
      var x :| x in left;
      r := r + [x];
      left := left - {x};
    }
    DistinctCardinality(r);
  }

  function Duplicates<T(==)>(ids: seq<T>): int {
    |ids| - |Elements(ids)|
  }

  lemma {:induction false} ElementsSnoc<T>(s: seq<T>, i: nat)
    requires i < |s|
    ensures Elements(s[..i + 1]) == Elements(s[..i]) + {s[i]}
  {
    assert s[..i + 1] == s[..i] + [s[i]];
  }

  // Counts the affected ids and finds the requested ones that were not affected.
  method Reconcile<T(==)>(requested: seq<T>, affected: seq<T>) returns (updated: int, invalid: seq<T>)
    requires Distinct(affected) && Elements(affected) <= Elements(requested)
    ensures updated == |affected|
    ensures Distinct(invalid) && Elements(invalid) == Elements(requested) - Elements(affected)
    ensures |requested| == updated + |invalid| + Duplicates(requested)
  {
    updated := 0;
    var pending: set<T> := {};
    for i := 0 to |requested|
      invariant pending == Elements(requested[..i])
    {
      pending := pending + {requested[i]};
      ElementsSnoc(requested, i);
    }
    assert requested[..|requested|] == requested;
    for i := 0 to |affected|
      invariant updated == i
      invariant pending == Elements(requested) - Elements(affected[..i])
    {
      updated := updated + 1;
      pending := pending - {affected[i]};
      ElementsSnoc(affected, i);
    }
    assert affected[..|affected|] == affected;
    invalid := Fetch(pending);
    DistinctCardinality(affected);
    assert Elements(requested) == Elements(affected) + pending;
  }

  // ---------- Transactions ----------

  // A transaction: a working copy of the tables that becomes visible at commit only.
  class Tx {
    const base: Tables
    var tables: Tables

    constructor (tables: Tables)
      ensures base == tables && this.tables == tables
    {
      base := tables;
      this.tables := tables;
    }

    // One INSERT statement.
    method Exec(rows: seq<Row>) returns (ok: bool)
      modifies this
      ensures ok == InsertAll(old(tables), rows).Some?
      ensures tables == if ok then InsertAll(old(tables), rows).value else old(tables)
    {
      var r := InsertAll(tables, rows);
      ok := r.Some?;
      if ok {
        tables := r.value;
      }
    }

    method Rollback()
      modifies this
      ensures tables == base
    {
      tables := base;
    }
  }

  const PLACEHOLDERS := 65536

  function ChunkSize(numField: int): int
    requires numField != 0
  {
    PLACEHOLDERS / numField - 1
  }

  // The chunk is positive, so that the loop advances, exactly for up to 32768 fields,
  // and then a batch never has more than 65535 parameters.
  lemma {:induction false} ChunkFits(numField: int)
    requires 1 <= numField
    ensures 1 <= ChunkSize(numField) <==> numField <= 32768
    ensures numField <= 32768 ==> ChunkSize(numField) * numField <= 65535
  {
    var q := PLACEHOLDERS / numField;
    assert q * numField <= PLACEHOLDERS < (q + 1) * numField;
    if numField <= 32768 {
      assert q >= 2;
      assert (q - 1) * numField == q * numField - numField;
    } else {
      assert (q - 2) * numField < 0;
    }
  }

  function Flatten<T>(parts: seq<seq<T>>): seq<T> {
    if parts == [] then [] else parts[0] + Flatten(parts[1..])
  }

  lemma {:induction false} FlattenSnoc<T>(parts: seq<seq<T>>, last: seq<T>)
    ensures Flatten(parts + [last]) == Flatten(parts) + last
  {
    if parts == [] {
      assert [last][1..] == [];
    } else {
      assert (parts + [last])[1..] == parts[1..] + [last];
      FlattenSnoc(parts[1..], last);
    }
  }

  lemma {:induction false} BatchStep(t: Tables, data: seq<Row>, i: nat, limit: nat)
    requires i <= limit <= |data|
    ensures InsertAll(t, data[..limit]) ==
            match InsertAll(t, data[..i]) case None => None case Some(t1) => InsertAll(t1, data[i..limit])
    ensures InsertAll(t, data[..limit]).None? ==> InsertAll(t, data).None?
  {
    assert data[..limit] == data[..i] + data[i..limit] && data == data[..limit] + data[limit..];
    InsertAllSplit(t, data[..i], data[i..limit]);
    InsertAllSplit(t, data[..limit], data[limit..]);
  }

  lemma {:induction false} Fewer(a: nat, b: nat, numField: nat)
    requires a <= b
    ensures a * numField <= b * numField
  {
  }

  // Inserting in batches is inserting the whole list at once; a failing batch undoes the transaction.
  method BulkInsert(tx: Tx, data: seq<Row>, numField: int) returns (ok: bool, ghost sent: seq<seq<Row>>)
    requires 1 <= numField <= 32768
    modifies tx
    ensures ok <==> InsertAll(old(tx.tables), data).Some?
    ensures tx.tables == if ok then InsertAll(old(tx.tables), data).value else tx.base
    ensures Flatten(sent) <= data && (ok ==> Flatten(sent) == data)
    ensures forall k :: 0 <= k < |sent| ==> 1 <= |sent[k]| && |sent[k]| * numField <= 65535
  {
    var maxBulkInsert := ChunkSize(numField);
    ChunkFits(numField);
    var i := 0;
    sent := [];
    ghost var n := 0;  // how many rows have been sent
    while i < |data|
      invariant 0 <= i && n == if i < |data| then i else |data|
      invariant InsertAll(old(tx.tables), data[..n]) == Some(tx.tables) && Flatten(sent) == data[..n]
      invariant forall k :: 0 <= k < |sent| ==> 1 <= |sent[k]| && |sent[k]| * numField <= 65535
    {
      var limit := i + maxBulkInsert;
      if |data| < limit {
        limit := |data|;
      }
      var batch := data[i..limit];
      BatchStep(old(tx.tables), data, i, limit);
      Fewer(|batch|, maxBulkInsert, numField);
      FlattenSnoc(sent, batch);
      sent := sent + [batch];
      assert Flatten(sent) == data[..i] + batch == data[..limit];
      var done := tx.Exec(batch);
      if !done {
        tx.Rollback();
        return false, sent;
      }
      n := limit;
      i := i + maxBulkInsert;
    }
    assert data[..n] == data;
    return true, sent;
  }
}
