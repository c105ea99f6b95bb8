/**
 * `query_database` of modules/prepare_db.py: read the tariff schedule, run
 * every cell of the rate column through the rate parser, then keep the rows
 * whose code equals the one asked for.
 */
module TariffLookup {
  import opened Wrappers
  import opened RateParser

  /** A row as read from the schedule file: the "HTS Number" and the raw "General Rate of Duty". */
  datatype RawRow = RawRow(code: string, rate: Cell)

  /** A row after the rate column has been replaced by parsed multipliers. */
  datatype TariffRow = TariffRow(code: string, rate: real)

  /** The schedule file: absent, or present with its rows in file order. */
  datatype Schedule = Missing | Present(rows: seq<RawRow>)

  /**
   * The `apply(parse)` of the rate column: all rows parsed, or the first
   * exception raised by any of them. `Lookup` passes the rate parser as
   * `parse`; keeping it a parameter keeps its rule chain out of these proofs.
   */
  function ParseColumn(rows: seq<RawRow>, parse: Cell -> Result<real>): (r: Result<seq<TariffRow>>)
    ensures r.Ok? <==> forall i :: 0 <= i < |rows| ==> parse(rows[i].rate).Ok?
    ensures r.Ok? ==> |r.value| == |rows|
    ensures r.Ok? ==> forall i :: 0 <= i < |rows| ==>
              r.value[i] == TariffRow(rows[i].code, parse(rows[i].rate).value)
    decreases |rows|
  {
    if rows == [] then Ok([])
    else
      var last := rows[|rows| - 1];
      match ParseColumn(rows[..|rows| - 1], parse)
      case Err(e) => Err(e)
      case Ok(front) =>
        match parse(last.rate)
        case Err(e) => Err(e)
        case Ok(v) => Ok(front + [TariffRow(last.code, v)])
  }

  /** The boolean-mask filter `rows[rows.code == code]`. */
  function Matching(rows: seq<TariffRow>, code: string): (r: seq<TariffRow>)
    ensures |r| <= |rows|
    ensures forall k :: 0 <= k < |r| ==> r[k].code == code && r[k] in rows
    decreases |rows|
  {
    if rows == [] then []
    else
      var last := rows[|rows| - 1];
      Matching(rows[..|rows| - 1], code) + (if last.code == code then [last] else [])
  }

  /** What `query_database(code)` returns; every failure gives the empty result. */
  function Lookup(schedule: Schedule, code: string): (r: seq<TariffRow>)
    ensures schedule.Missing? ==> r == []
    ensures schedule.Present? ==> |r| <= |schedule.rows|
    ensures forall k :: 0 <= k < |r| ==> r[k].code == code
  {
    match schedule
    case Missing => []
    case Present(rows) =>
      match ParseColumn(rows, ParseDutyRate)
      case Err(_) => []
      case Ok(parsed) => Matching(parsed, code)
  }

  /** Line 8: the rate column replaced by its parsed values, or the exception that stops it. */
  method ParseRates(rows: seq<RawRow>, parse: Cell -> Result<real>) returns (r: Result<seq<TariffRow>>)
    ensures r == ParseColumn(rows, parse)
  {
    var parsed: seq<TariffRow> := [];
    var i := 0;
    while i < |rows|
      invariant 0 <= i <= |rows|
      invariant ParseColumn(rows[..i], parse) == Ok(parsed)
    {
      assert rows[..i + 1][..i] == rows[..i];
      var rate := parse(rows[i].rate);
      if rate.Err? {
        assert rows[..i + 1][i] == rows[i];
        PrefixErrSpoils(rows, i + 1, parse);
        return Err(rate.detail);
      }
      parsed := parsed + [TariffRow(rows[i].code, rate.value)];
      i := i + 1;
    }
    assert rows[..i] == rows;
    return Ok(parsed);
  }

  /** Line 9: the rows whose code equals `code`, in order. */
  method SelectCode(parsed: seq<TariffRow>, code: string) returns (result: seq<TariffRow>)
    ensures result == Matching(parsed, code)
  {
    result := [];
    var j := 0;
    while j < |parsed|
      invariant 0 <= j <= |parsed|
      invariant result == Matching(parsed[..j], code)
    {
      assert parsed[..j + 1][..j] == parsed[..j];
      if parsed[j].code == code {
        result := result + [parsed[j]];
      }
      j := j + 1;
    }
    assert parsed[..j] == parsed;
  }

  /** `query_database`: a missing file or any exception gives the empty result. */
  method QueryDatabase(schedule: Schedule, code: string) returns (result: seq<TariffRow>)
    ensures result == Lookup(schedule, code)
  {
    if schedule.Missing? {
      return [];
    }
    var parsed := ParseRates(schedule.rows, ParseDutyRate);
    if parsed.Err? {
      return [];
    }
    result := SelectCode(parsed.value, code);
  }

  // ------------------------------------------------------------ properties

  /** The exception raised in a prefix of the column is the one the whole column raises. */
  lemma {:induction false} PrefixErrSpoils(rows: seq<RawRow>, n: nat, parse: Cell -> Result<real>)
    requires n <= |rows| && ParseColumn(rows[..n], parse).Err?
    ensures ParseColumn(rows, parse) == ParseColumn(rows[..n], parse)
    decreases |rows|
  {
    if n < |rows| {
      var front := rows[..|rows| - 1];
      assert front[..n] == rows[..n];
      PrefixErrSpoils(front, n, parse);
    } else {
      assert rows[..n] == rows;
    }
  }

  /** The filter distributes over concatenation, so it keeps the original order. */
  lemma {:induction false} MatchingAppend(a: seq<TariffRow>, b: seq<TariffRow>, code: string)
    ensures Matching(a + b, code) == Matching(a, code) + Matching(b, code)
    decreases |b|
  {
    if b == [] {
      assert a + b == a;
    } else {
      var b' := b[..|b| - 1];
      assert (a + b)[..|a + b| - 1] == a + b';
      MatchingAppend(a, b', code);
    }
  }

  /** A row carrying the code survives the filter. */
  lemma {:induction false} MatchingKeeps(rows: seq<TariffRow>, code: string, i: nat)
    requires i < |rows| && rows[i].code == code
    ensures rows[i] in Matching(rows, code)
    decreases |rows|
  {
    if i < |rows| - 1 {
      MatchingKeeps(rows[..|rows| - 1], code, i);
    }
  }

  /** The first match is the first row, in file order, that carries the code. */
  lemma {:induction false} FirstMatch(rows: seq<TariffRow>, code: string)
    requires Matching(rows, code) != []
    ensures exists i :: 0 <= i < |rows| && rows[i].code == code
              && (forall j :: 0 <= j < i ==> rows[j].code != code)
              && Matching(rows, code)[0] == rows[i]
    decreases |rows|
  {
    var front := rows[..|rows| - 1];
    var last := rows[|rows| - 1];
    var tail := if last.code == code then [last] else [];
    assert Matching(rows, code) == Matching(front, code) + tail;
    if Matching(front, code) != [] {
      FirstMatch(front, code);
      var i :| 0 <= i < |front| && front[i].code == code
                && (forall j :: 0 <= j < i ==> front[j].code != code)
                && Matching(front, code)[0] == front[i];
      assert Matching(rows, code)[0] == Matching(front, code)[0];
      assert rows[i] == front[i];
      assert forall j :: 0 <= j < i ==> rows[j] == front[j];
    } else {
      forall j | 0 <= j < |front| ensures rows[j].code != code {
        if front[j].code == code {
          MatchingKeeps(front, code, j);
        }
      }
      assert Matching(rows, code) == tail;
      assert last.code == code && Matching(rows, code)[0] == rows[|rows| - 1];
    }
  }

  /**
   * The whole result: exactly the parsed rows carrying the code, in file order,
   * when every rate of the column parses.
   */
  lemma LookupSucceeds(rows: seq<RawRow>, parse: Cell -> Result<real>, code: string)
    requires forall i :: 0 <= i < |rows| ==> parse(rows[i].rate).Ok?
    ensures ParseColumn(rows, parse).Ok?
    ensures forall x :: x in Matching(ParseColumn(rows, parse).value, code) <==>
              exists i :: 0 <= i < |rows| && rows[i].code == code
                          && x == TariffRow(rows[i].code, parse(rows[i].rate).value)
  {
    var parsed := ParseColumn(rows, parse).value;
    forall x ensures x in Matching(parsed, code) <==>
                exists i :: 0 <= i < |rows| && rows[i].code == code
                            && x == TariffRow(rows[i].code, parse(rows[i].rate).value)
    {
      if x in Matching(parsed, code) {
        var i :| 0 <= i < |parsed| && parsed[i] == x;
        assert rows[i].code == code;
      }
      if exists i :: 0 <= i < |rows| && rows[i].code == code
                     && x == TariffRow(rows[i].code, parse(rows[i].rate).value) {
        var i :| 0 <= i < |rows| && rows[i].code == code
                 && x == TariffRow(rows[i].code, parse(rows[i].rate).value);
        MatchingKeeps(parsed, code, i);
      }
    }
  }

  /** A missing file, or one raising rate anywhere in the column, gives nothing for every code. */
  lemma AnyFailureEmpties(schedule: Schedule, k: nat, code: string)
    requires schedule.Missing? || (k < |schedule.rows| && ParseDutyRate(schedule.rows[k].rate).Err?)
    ensures Lookup(schedule, code) == []
  {
  }

  /** The column of `LookupExample`, under a parser that keeps numbers, parses to its numbers. */
  lemma ParsedExample(rows: seq<RawRow>, parse: Cell -> Result<real>,
                      code: string, other: string, x: real, y: real, z: real)
    requires rows == [RawRow(code, Number(x)), RawRow(other, Number(y)), RawRow(code, Number(z))]
    requires parse(Number(x)) == Ok(x) && parse(Number(y)) == Ok(y) && parse(Number(z)) == Ok(z)
    ensures ParseColumn(rows, parse) == Ok([TariffRow(code, x), TariffRow(other, y), TariffRow(code, z)])
  {
    assert forall i :: 0 <= i < |rows| ==> parse(rows[i].rate).Ok?;
    var p := ParseColumn(rows, parse).value;
    assert p == [TariffRow(code, x), TariffRow(other, y), TariffRow(code, z)];
  }

  /** The filter of `LookupExample`: the two rows with the code, in order. */
  lemma MatchingExample(parsed: seq<TariffRow>, code: string, other: string, x: real, y: real, z: real)
    requires code != other
    requires parsed == [TariffRow(code, x), TariffRow(other, y), TariffRow(code, z)]
    ensures Matching(parsed, code) == [TariffRow(code, x), TariffRow(code, z)]
  {
    assert parsed[..2][..1] == parsed[..1];
    assert parsed[..1][..0] == [];
    assert Matching(parsed[..1], code) == [parsed[0]];
    assert Matching(parsed[..2], code) == [parsed[0]];
  }

  /** Example: two rows for one code are both returned, in file order; the other code's row is not. */
  lemma LookupExample(s: Schedule, code: string, other: string, x: real, y: real, z: real)
    requires code != other
    requires s == Present([RawRow(code, Number(x)), RawRow(other, Number(y)), RawRow(code, Number(z))])
    ensures Lookup(s, code) == [TariffRow(code, x), TariffRow(code, z)]
  {
    var parsed := [TariffRow(code, x), TariffRow(other, y), TariffRow(code, z)];
    NumericCellAsIs(x);
    NumericCellAsIs(y);
    NumericCellAsIs(z);
    ParsedExample(s.rows, ParseDutyRate, code, other, x, y, z);
    MatchingExample(parsed, code, other, x, y, z);
  }
}
