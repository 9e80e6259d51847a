/**
 * The generic repository: paginated listing, exact-match lookup of one row,
 * the lookup that fails with "Not found", and row creation. A row maps column
 * names to values; a column the row lacks holds NULL. The database returns rows
 * in no specified order, so the model fixes the order of the sequence `rows`.
 */
module Repositories {
  import opened Wrappers
  import opened Errors

  type Row<V> = map<string, V>

  /** A row matches a filter when it holds every filtered column with the filtered value. */
  predicate Matches<V(==)>(row: Row<V>, params: map<string, V>) {
    forall k :: k in params ==> k in row && row[k] == params[k]
  }

  /** The rows that match a filter, in order: what the database returns for the query. */
  function Filter<V(==)>(rows: seq<Row<V>>, params: map<string, V>): (r: seq<Row<V>>)
    ensures |r| <= |rows|
  {
    if rows == [] then []
    else (if Matches(rows[0], params) then [rows[0]] else []) + Filter(rows[1..], params)
  }

  /**
   * The filter returns only stored rows that match, includes every matching row,
   * and is empty exactly when no row matches.
   */
  lemma {:induction false} FilterMembers<V>(rows: seq<Row<V>>, params: map<string, V>)
    ensures forall x :: x in Filter(rows, params) ==> x in rows && Matches(x, params)
    ensures forall i :: 0 <= i < |rows| && Matches(rows[i], params) ==> rows[i] in Filter(rows, params)
    ensures Filter(rows, params) == [] <==> forall i :: 0 <= i < |rows| ==> !Matches(rows[i], params)
  {
    if rows != [] {
      FilterMembers(rows[1..], params);
      forall i | 0 <= i < |rows| && Matches(rows[i], params)
        ensures rows[i] in Filter(rows, params)
      {
        if i > 0 {
          assert rows[i] == rows[1..][i - 1];
        }
      }
    }
  }

  /** Two distinct positions hold rows matching the filter. */
  ghost predicate TwoMatches<V>(rows: seq<Row<V>>, params: map<string, V>) {
    exists i, j :: 0 <= i < j < |rows| && Matches(rows[i], params) && Matches(rows[j], params)
  }

  /** The filter returns two rows or more exactly when two distinct positions hold matching rows. */
  lemma FilterCount<V>(rows: seq<Row<V>>, params: map<string, V>)
    ensures |Filter(rows, params)| >= 2 <==> TwoMatches(rows, params)
  {
    if |Filter(rows, params)| >= 2 {
      var i, j := FilterCountSound(rows, params);
    }
    if TwoMatches(rows, params) {
      FilterCountComplete(rows, params);
    }
  }

  /** A non-empty filter result comes from a matching position. */
  lemma {:induction false} FirstMatch<V>(rows: seq<Row<V>>, params: map<string, V>) returns (i: nat)
    requires |Filter(rows, params)| >= 1
    ensures i < |rows| && Matches(rows[i], params)
  {
    if Matches(rows[0], params) {
      i := 0;
    } else {
      var t := FirstMatch(rows[1..], params);
      i := t + 1;
    }
  }

  /** A filter result of two rows or more comes from two distinct matching positions. */
  lemma {:induction false} FilterCountSound<V>(rows: seq<Row<V>>, params: map<string, V>) returns (i: nat, j: nat)
    requires |Filter(rows, params)| >= 2
    ensures i < j < |rows| && Matches(rows[i], params) && Matches(rows[j], params)
  {
    if Matches(rows[0], params) {
      var t := FirstMatch(rows[1..], params);
      i, j := 0, t + 1;
    } else {
      var a, b := FilterCountSound(rows[1..], params);
      i, j := a + 1, b + 1;
    }
  }

  lemma {:induction false} FilterCountComplete<V>(rows: seq<Row<V>>, params: map<string, V>)
    requires TwoMatches(rows, params)
    ensures |Filter(rows, params)| >= 2
  {
    var i, j :| 0 <= i < j < |rows| && Matches(rows[i], params) && Matches(rows[j], params);
    var tail := rows[1..];
    var found := Filter(tail, params);
    assert |Filter(rows, params)| == (if Matches(rows[0], params) then 1 else 0) + |found|;
    assert tail[j - 1] == rows[j];
    if i == 0 {
      FilterMembers(tail, params);
      assert tail[j - 1] in found;
    } else {
      assert tail[i - 1] == rows[i];
      assert TwoMatches(tail, params);
      FilterCountComplete(tail, params);
    }
  }

  /** Appending a row extends the filtered rows by that row exactly when it matches. */
  lemma {:induction false} FilterSnoc<V>(rows: seq<Row<V>>, x: Row<V>, params: map<string, V>)
    ensures Filter(rows + [x], params) == Filter(rows, params) + (if Matches(x, params) then [x] else [])
  {
    if rows != [] {
      var head := if Matches(rows[0], params) then [rows[0]] else [];
      var last := if Matches(x, params) then [x] else [];
      assert (rows + [x])[0] == rows[0];
      assert (rows + [x])[1..] == rows[1..] + [x];
      FilterSnoc(rows[1..], x, params);
      calc {
        Filter(rows + [x], params);
        head + Filter(rows[1..] + [x], params);
        head + (Filter(rows[1..], params) + last);
        (head + Filter(rows[1..], params)) + last;
        Filter(rows, params) + last;
      }
    }
  }

  /** Exactly one position holds a row matching the filter, and it holds `row`. */
  ghost predicate UniqueMatch<V>(rows: seq<Row<V>>, params: map<string, V>, row: Row<V>) {
    exists i :: 0 <= i < |rows| && rows[i] == row && Matches(row, params)
      && forall j :: 0 <= j < |rows| && Matches(rows[j], params) ==> j == i
  }

  /** The row an insert stores: the given values, and the database's values for the columns left unset. */
  function InsertedRow<V(==)>(columns: set<string>, body: Row<V>, generated: Row<V>): (row: Row<V>)
    requires body.Keys <= columns
    ensures row.Keys == body.Keys + (generated.Keys * columns)
    ensures forall k :: k in body ==> k in row && row[k] == body[k]
    ensures forall k :: k in row && k !in body ==> k in generated && row[k] == generated[k]
  {
    body + map k | k in generated && k in columns && k !in body :: generated[k]
  }

  class BaseRepository<V(==)> {
    /** The columns of the entity the repository serves. */
    const columns: set<string>
    /** The stored rows of that entity. */
    var rows: seq<Row<V>>

    ghost predicate Valid()
      reads this
    {
      forall i :: 0 <= i < |rows| ==> rows[i].Keys <= columns
    }

    constructor (columns: set<string>, rows: seq<Row<V>>)
      requires forall i :: 0 <= i < |rows| ==> rows[i].Keys <= columns
      ensures Valid() && this.columns == columns && this.rows == rows
    {
      this.columns := columns;
      this.rows := rows;
    }

    /**
     * All rows, or, when both bounds are given, the rows from position `offset`
     * on, at most `limit` of them. One absent bound disables pagination.
     */
    function GetMany(offset: Option<int>, limit: Option<int>): (r: Result<seq<Row<V>>, Exception>)
      reads this
      ensures offset.None? || limit.None? ==> r == Ok(rows)
      ensures Valid() && r.Ok? ==> forall i :: 0 <= i < |r.value| ==> r.value[i].Keys <= columns
      ensures offset.Some? && limit.Some? && (offset.value < 0 || limit.value < 0) ==> r == Err(NegativePagination)
      ensures offset.Some? && limit.Some? && 0 <= offset.value && 0 <= limit.value ==>
        && r.Ok?
        && |r.value| <= limit.value
        && |r.value| == (if offset.value + limit.value <= |rows| then limit.value
                         else if offset.value <= |rows| then |rows| - offset.value else 0)
        && forall i :: 0 <= i < |r.value| ==> offset.value + i < |rows| && r.value[i] == rows[offset.value + i]
    {
      if offset.None? || limit.None? then Ok(rows)
      else if offset.value < 0 || limit.value < 0 then Err(NegativePagination)
      else
        var start := if offset.value <= |rows| then offset.value else |rows|;
        var end := if start + limit.value <= |rows| then start + limit.value else |rows|;
        Ok(rows[start..end])
    }

    /**
     * The one row matching every filter value, None when no row matches; more
     * than one matching row, or a filter on an unknown attribute, raises.
     */
    function GetOne(params: map<string, V>): (r: Result<Option<Row<V>>, Exception>)
      reads this
      ensures r == Err(InvalidFilterAttribute) <==> !(params.Keys <= columns)
      ensures r.Err? ==> r.error == InvalidFilterAttribute || r.error == MultipleResultsFound
      ensures forall i :: 0 <= i < |rows| && params.Keys <= columns && UniqueMatch(rows, params, rows[i]) ==> r == Ok(Some(rows[i]))
      ensures Valid() && r.Ok? && r.value.Some? ==> r.value.value.Keys <= columns
      ensures r == Ok(None) <==> params.Keys <= columns && forall i :: 0 <= i < |rows| ==> !Matches(rows[i], params)
      ensures r.Ok? && r.value.Some? ==> UniqueMatch(rows, params, r.value.value)
      ensures r == Err(MultipleResultsFound) <==> params.Keys <= columns && TwoMatches(rows, params)
    {
      var found := Filter(rows, params);
      FilterMembers(rows, params);
      FilterCount(rows, params);
      if !(params.Keys <= columns) then Err(InvalidFilterAttribute)
      else if |found| == 0 then Ok(None)
      else if |found| == 1 then
        assert found[0] in rows;
        Ok(Some(found[0]))
      else Err(MultipleResultsFound)
    }

    /** Like GetOne, but a missing row raises "Not found" instead of returning None. */
    function GetOneOr404(params: map<string, V>): (r: Result<Row<V>, Exception>)
      reads this
      ensures r.Ok? <==> GetOne(params).Ok? && GetOne(params).value.Some?
      ensures r.Ok? ==> UniqueMatch(rows, params, r.value)
      ensures forall i :: 0 <= i < |rows| && params.Keys <= columns && UniqueMatch(rows, params, rows[i]) ==> r == Ok(rows[i])
      ensures Valid() && r.Ok? ==> r.value.Keys <= columns
      ensures r == Err(NotFound) <==> params.Keys <= columns && forall i :: 0 <= i < |rows| ==> !Matches(rows[i], params)
      ensures GetOne(params).Err? ==> r == Err(GetOne(params).error)
    {
      match GetOne(params)
      case Err(e) => Err(e)
      case Ok(None) => Err(NotFound)
      case Ok(Some(row)) => Ok(row)
    }

    /**
     * Inserts one row built from `body` and returns it. `generated` stands for the
     * values the database gives the columns `body` leaves unset (identifier,
     * timestamps). A key that is not a column makes the constructor raise.
     */
    method Create(body: Row<V>, generated: Row<V>) returns (r: Result<Row<V>, Exception>)
      requires Valid()
      modifies this
      ensures Valid()
      ensures !(body.Keys <= columns) ==> r == Err(UnexpectedKeyword) && rows == old(rows)
      ensures body.Keys <= columns ==> r == Ok(InsertedRow(columns, body, generated)) && rows == old(rows) + [r.value]
    {
      if !(body.Keys <= columns) {
        return Err(UnexpectedKeyword);
      }
      var row := InsertedRow(columns, body, generated);
      rows := rows + [row];
      r := Ok(row);
    }
  }

  /**
   * A row just created, which matches a filter no earlier row matched, is the
   * one row that filter now finds.
   */
  lemma CreatedRowIsFound<V>(repo: BaseRepository<V>, before: seq<Row<V>>, x: Row<V>, params: map<string, V>)
    requires repo.rows == before + [x]
    requires params.Keys <= repo.columns && Matches(x, params)
    requires forall i :: 0 <= i < |before| ==> !Matches(before[i], params)
    ensures repo.GetOne(params) == Ok(Some(x))
    ensures repo.GetOneOr404(params) == Ok(x)
  {
    FilterSnoc(before, x, params);
    FilterMembers(before, params);
  }
}
