/** The chunked multi-row inserter of the importer. */
module Batch {
  import opened Options

  const MAX_VARIABLES := 999

  function Concat<T>(chunks: seq<seq<T>>): seq<T> {
    if chunks == [] then [] else Concat(chunks[..|chunks| - 1]) + chunks[|chunks| - 1]
  }

  /** Upserting rows one by one into a table. */
  function Upserted<T, D>(upsert: (D, T) -> D, table: D, rows: seq<T>): D {
    if rows == [] then table else upsert(Upserted(upsert, table, rows[..|rows| - 1]), rows[|rows| - 1])
  }

  /** Running one multi-row statement after the other; a statement upserts its rows in order. */
  function Ran<T, D>(upsert: (D, T) -> D, table: D, statements: seq<seq<T>>): D {
    if statements == [] then table
    else Upserted(upsert, Ran(upsert, table, statements[..|statements| - 1]), statements[|statements| - 1])
  }

  lemma {:induction false} UpsertedAppend<T, D>(upsert: (D, T) -> D, table: D, a: seq<T>, b: seq<T>)
    ensures Upserted(upsert, table, a + b) == Upserted(upsert, Upserted(upsert, table, a), b)
  {
    if b == [] {
      assert a + b == a;
    } else {
      assert (a + b)[..|a + b| - 1] == a + b[..|b| - 1];
      UpsertedAppend(upsert, table, a, b[..|b| - 1]);
    }
  }

  /** Chunking does not matter: the statements leave the table as row-by-row upserts of all their rows would. */
  lemma {:induction false} ChunksEqualRows<T, D>(upsert: (D, T) -> D, table: D, statements: seq<seq<T>>)
    ensures Ran(upsert, table, statements) == Upserted(upsert, table, Concat(statements))
  {
    if statements != [] {
      var init, last := statements[..|statements| - 1], statements[|statements| - 1];
      ChunksEqualRows(upsert, table, init);
      UpsertedAppend(upsert, table, Concat(init), last);
    }
  }

  lemma ConcatOne<T>(chunks: seq<seq<T>>, chunk: seq<T>)
    ensures Concat(chunks + [chunk]) == Concat(chunks) + chunk
  {
    assert (chunks + [chunk])[..|chunks|] == chunks;
  }

  /** Rows are sequences of bound values; statements lists the rows of every statement run so far. */
  class BatchInserter<V> {
    const columnCount: nat
    const rowsPerChunk: nat
    var pending: seq<seq<V>>
    var flushed: nat
    var statements: seq<seq<seq<V>>>

    /** Every statement has rows, at most a chunk of them, and each row has its columns. */
    ghost predicate Valid()
      reads this
    {
      && rowsPerChunk >= 1 && columnCount >= 1 && |pending| < rowsPerChunk
      && flushed == |Concat(statements)|
      && (forall i :: 0 <= i < |statements| ==> 1 <= |statements[i]| <= rowsPerChunk)
      && (forall i :: 0 <= i < |Rows()| ==> |Rows()[i]| == columnCount)
    }

    /** Everything added so far, in order. */
    ghost function Rows(): seq<seq<V>>
      reads this
    {
      Concat(statements) + pending
    }

    constructor (columnCount: nat, override: Option<nat>)
      requires columnCount >= 1 && (override.Some? ==> override.value >= 1)
      ensures Valid() && Rows() == [] && this.columnCount == columnCount
      ensures override.Some? ==> rowsPerChunk == override.value
      ensures override.None? && columnCount <= 999 ==>
                rowsPerChunk * columnCount <= 999 < (rowsPerChunk + 1) * columnCount
      ensures override.None? && columnCount > 999 ==> rowsPerChunk == 1
    {
      this.columnCount := columnCount;
      var fit := MAX_VARIABLES / columnCount;
      Fits(columnCount);
      this.rowsPerChunk := if override.Some? then override.value else if fit >= 1 then fit else 1;
      pending, flushed, statements := [], 0, [];
    }

    method Add(row: seq<V>) returns (ok: bool)
      requires Valid()
      modifies this
      ensures Valid() && ok == (|row| == columnCount)
      ensures Rows() == if ok then old(Rows()) + [row] else old(Rows())
    {
      if |row| != columnCount { return false; }
      pending := pending + [row];
      ghost var rows := Rows();
      assert rows == old(Rows()) + [row];
      if |pending| >= rowsPerChunk { RunChunks(); }
      ok := true;
    }

    method Flush()
      requires Valid()
      modifies this
      ensures Valid() && Rows() == old(Rows()) && pending == [] && Concat(statements) == Rows() && flushed == |Rows()|
    {
      RunChunks();
    }

    method RunChunks()
      requires rowsPerChunk >= 1 && columnCount >= 1 && flushed == |Concat(statements)|
      requires forall i :: 0 <= i < |statements| ==> 1 <= |statements[i]| <= rowsPerChunk
      requires forall i :: 0 <= i < |Rows()| ==> |Rows()[i]| == columnCount
      modifies this
      ensures Valid() && Rows() == old(Rows()) && pending == []
    {
      while |pending| > 0
        invariant flushed == |Concat(statements)| && Rows() == old(Rows())
        invariant forall i :: 0 <= i < |statements| ==> 1 <= |statements[i]| <= rowsPerChunk
        decreases |pending|
      {
        var n := if |pending| < rowsPerChunk then |pending| else rowsPerChunk;
        var chunk := pending[..n];
        ConcatOne(statements, chunk);
        assert pending == chunk + pending[n..];
        statements := statements + [chunk];
        flushed := flushed + n;
        pending := pending[n..];
      }
    }
  }

  lemma Fits(columns: nat)
    requires columns >= 1
    ensures MAX_VARIABLES / columns * columns <= 999 < (MAX_VARIABLES / columns + 1) * columns
    ensures columns <= 999 <==> MAX_VARIABLES / columns >= 1
  {
    assert columns <= MAX_VARIABLES ==> MAX_VARIABLES / columns >= columns / columns;
  }
}
