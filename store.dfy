/**
 * The `fields` table behind one session's backing connection, and the three
 * storage helpers getkey, setkey and delkey.
 *
 * The table is an abstract key -> value map. A backing-store failure is an
 * explicit input: every statement is given a `fault`, None when it succeeds
 * and Some(text) when the store answers it with that error text. A failed
 * statement leaves the table as it was.
 */
module Store {
  import opened Wrappers

  /** The rows of the `fields` table: at most one value per key. */
  type Rows = map<string, string>

  /** The error text the driver gives a row query that found no row. */
  const NoRows: string := "no rows in result set"

  /** The statements the adapter sends to the backing store. */
  datatype Stmt =
    | SelectValue(key: string)            // select value from fields where key = $1
    | Upsert(key: string, value: string)  // insert ... on conflict (key) do update set value = $2
    | DeleteKey(key: string)              // delete from fields where key = $1
    | DeleteAll                           // delete from fields
    | BeginSerializable                   // BEGIN ISOLATION LEVEL SERIALIZABLE
    | Verbatim(text: string)              // a transaction verb, sent as the client wrote it

  /** The effect a statement that succeeds has on the table. */
  function Apply(rows: Rows, s: Stmt): (r: Rows)
  {
    match s
    case Upsert(k, v) => rows[k := v]
    case DeleteKey(k) => rows - {k}
    case DeleteAll => map[]
    case _ => rows
  }

  /**
   * The effect of a statement run with the given fault input. The ensures
   * only repeats the failing branch of the body; it is there to keep the
   * proofs cheap, not as a property.
   */
  function Run(rows: Rows, s: Stmt, fault: Option<string>): (r: Rows)
    ensures fault.Some? ==> r == rows
  {
    if fault.None? then Apply(rows, s) else rows
  }

  /** The fault input of the i-th statement of a command; statements past the end of `faults` succeed. */
  function FaultAt(faults: seq<Option<string>>, i: nat): Option<string>
  {
    if i < |faults| then faults[i] else None
  }

  /** The rows after running `stmts` in order, the first of them as statement number `next`. */
  function Replay(rows: Rows, stmts: seq<Stmt>, faults: seq<Option<string>>, next: nat): Rows
    decreases |stmts|
  {
    if stmts == [] then rows
    else Replay(Run(rows, stmts[0], FaultAt(faults, next)), stmts[1..], faults, next + 1)
  }

  /** Running two lists of statements one after the other is running their concatenation. */
  lemma {:induction false} ReplayAppend(rows: Rows, a: seq<Stmt>, b: seq<Stmt>, faults: seq<Option<string>>, next: nat)
    ensures Replay(rows, a + b, faults, next) == Replay(Replay(rows, a, faults, next), b, faults, next + |a|)
    decreases |a|
  {
    if a != [] {
      assert (a + b)[0] == a[0];
      assert (a + b)[1..] == a[1..] + b;
      ReplayAppend(Run(rows, a[0], FaultAt(faults, next)), a[1..], b, faults, next + 1);
    } else {
      assert a + b == b;
    }
  }

  /**
   * The row query as the driver reports it: the value, or an error text,
   * where a missing row is reported as the error NoRows.
   */
  function QueryValue(rows: Rows, key: string, fault: Option<string>): (r: Result<string>)
  {
    if fault.Some? then Err(fault.value)
    else if key in rows then Ok(rows[key])
    else Err(NoRows)
  }

  /**
   * getkey: the value when the row exists, None when the driver reports no
   * row, an error otherwise. An absent key is not an error. Because the
   * helper tells "no row" from a failure by the error text alone, a failure
   * whose text is NoRows also reads as an absent key.
   */
  function GetKey(rows: Rows, key: string, fault: Option<string>): (r: Result<Option<string>>)
    ensures fault.None? ==> r == Ok(if key in rows then Some(rows[key]) else None)
    ensures r.Err? <==> fault.Some? && fault.value != NoRows
    ensures r.Err? ==> r.error == fault.value
    ensures r.Ok? && r.value.Some? ==> key in rows && r.value.value == rows[key]
    ensures fault == Some(NoRows) ==> r == Ok(None)
  {
    match QueryValue(rows, key, fault)
    case Ok(v) => Ok(Some(v))
    case Err(e) => if e == NoRows then Ok(None) else Err(e)
  }

  /** What one call of delkey reports, the rows after it, and the statements it sent. */
  datatype DelStep = DelStep(deleted: bool, err: Option<string>, rows: Rows, issued: seq<Stmt>)

  /**
   * delkey: look the key up, and delete it only if the lookup found it.
   * It reports true only for a key that was present and whose delete
   * succeeded, and then removes exactly that key; otherwise the table is
   * unchanged.
   */
  function DelKeyOn(rows: Rows, key: string, selectFault: Option<string>, deleteFault: Option<string>): (r: DelStep)
    ensures r.rows == if r.deleted then rows - {key} else rows
    ensures r.deleted ==> key in rows && r.err.None?
    ensures r.err.None? ==> (|r.issued| == 2 <==> r.deleted)
    ensures r.issued == [SelectValue(key)] || r.issued == [SelectValue(key), DeleteKey(key)]
  {
    var got := GetKey(rows, key, selectFault);
    if got.Err? then DelStep(false, Some(got.error), rows, [SelectValue(key)])
    else if got.value.None? then DelStep(false, None, rows, [SelectValue(key)])
    else if deleteFault.Some? then DelStep(false, deleteFault, rows, [SelectValue(key), DeleteKey(key)])
    else DelStep(true, None, rows - {key}, [SelectValue(key), DeleteKey(key)])
  }

  /**
   * delkey sends the delete exactly when the lookup succeeded and found the
   * key; a lookup that fails with any text but NoRows ends delkey at once
   * with that error, before any delete; one that fails with NoRows reads
   * as an absent key: false, no error, no delete.
   */
  lemma DelKeyLookupFirst(rows: Rows, key: string, selectFault: Option<string>, deleteFault: Option<string>)
    ensures var r := DelKeyOn(rows, key, selectFault, deleteFault);
      && (|r.issued| == 2 <==> selectFault.None? && key in rows)
      && (selectFault.Some? && selectFault.value != NoRows ==> r == DelStep(false, selectFault, rows, [SelectValue(key)]))
      && (selectFault == Some(NoRows) ==> r == DelStep(false, None, rows, [SelectValue(key)]))
  {
  }

  /**
   * What delkey reports in each case: an absent key is false with no error
   * and no delete; with no failing statement it is exactly "was present";
   * an error is the text of the statement that failed, the last one sent;
   * and its effect is that of the statements it sent.
   */
  lemma DelKeyReports(rows: Rows, key: string, selectFault: Option<string>, deleteFault: Option<string>)
    ensures var r := DelKeyOn(rows, key, selectFault, deleteFault);
      && (key !in rows && selectFault.None? ==> r == DelStep(false, None, rows, [SelectValue(key)]))
      && (selectFault.None? && deleteFault.None? ==> r.deleted == (key in rows) && r.err.None?)
      && (r.err.Some? ==> r.err == if |r.issued| == 1 then selectFault else deleteFault)
      && r.rows == Replay(rows, r.issued, [selectFault, deleteFault], 0)
  {
    var r := DelKeyOn(rows, key, selectFault, deleteFault);
    var faults := [selectFault, deleteFault];
    if |r.issued| == 2 {
      var stmts := r.issued;
      assert Run(rows, stmts[0], FaultAt(faults, 0)) == rows;
      assert stmts[1..] == [DeleteKey(key)] && stmts[1..][1..] == [];
      assert FaultAt(faults, 1) == deleteFault;
      assert Replay(rows, stmts, faults, 0) == Replay(rows, [DeleteKey(key)], faults, 1);
      assert Replay(rows, [DeleteKey(key)], faults, 1) == Run(rows, DeleteKey(key), deleteFault);
    }
  }

  /** The table behind one session's backing connection. */
  class FieldTable {
    var rows: Rows

    /** The table as created at start-up: empty. */
    constructor ()
      ensures rows == map[]
    {
      rows := map[];
    }

    /** Send one statement that changes rows or nothing (every statement but the lookup). */
    method Exec(s: Stmt, fault: Option<string>) returns (err: Option<string>)
      modifies this
      ensures err == fault
      ensures rows == Run(old(rows), s, fault)
    {
      err := fault;
      if fault.None? {
        rows := Apply(rows, s);
      }
    }

    /** setkey: upsert. On success the key holds the value and no other key changes. */
    method SetKey(key: string, value: string, fault: Option<string>) returns (err: Option<string>)
      modifies this
      ensures err == fault
      ensures err.None? ==> rows == old(rows)[key := value]
      ensures err.Some? ==> rows == old(rows)
    {
      err := Exec(Upsert(key, value), fault);
    }

    /** delkey, against this table. */
    method DelKey(key: string, selectFault: Option<string>, deleteFault: Option<string>)
      returns (deleted: bool, err: Option<string>, ghost issued: seq<Stmt>)
      modifies this
      ensures DelStep(deleted, err, rows, issued) == DelKeyOn(old(rows), key, selectFault, deleteFault)
    {
      var got := GetKey(rows, key, selectFault);
      issued := [SelectValue(key)];
      if got.Err? {
        return false, Some(got.error), issued;
      }
      if got.value.None? {
        return false, None, issued;
      }
      issued := issued + [DeleteKey(key)];
      err := Exec(DeleteKey(key), deleteFault);
      deleted := err.None?;
    }
  }
}
