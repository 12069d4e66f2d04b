/** Reading the demand and ticket-revenue tables: comma-separated integer
    rows, with the demand file cut into days by `end` lines. */
module Demands {
  import opened Wrappers
  import opened Strings
  import opened Sums

  /** A table of integers, row by row. */
  type Table = seq<seq<int>>

  /** The day grouping's output: `demands_matrix` and `total_daily_demands`. */
  datatype Grouping = Grouping(matrices: seq<Table>, totals: seq<int>)

  // ---------------------------------------------------------------------
  // Cells and rows.  Python's `int(x)` is a partial function on strings;
  // the model takes it as the parameter `parse`, `None` meaning ValueError.

  function ParseCells(cells: seq<string>, parse: string -> Option<int>): (r: Option<seq<int>>)
    ensures r.Some? <==> forall k | 0 <= k < |cells| :: parse(cells[k]).Some?
    ensures r.Some? ==> (|r.value| == |cells| &&
      forall k | 0 <= k < |cells| :: parse(cells[k]) == Some(r.value[k]))
  {
    if |cells| == 0 then Some([])
    else
      match parse(cells[0])
      case None => None
      case Some(v) =>
        match ParseCells(cells[1..], parse)
        case None => None
        case Some(vs) => Some([v] + vs)
  }

  /** `list(map(lambda x: int(x), line.split(",")))`. */
  function ParseRow(line: string, parse: string -> Option<int>): Option<seq<int>>
  {
    ParseCells(Split(line, ','), parse)
  }

  /** Reads every line as a row, as the revenue loop does; `None` when some
      cell is not an integer. */
  function ReadTable(lines: seq<string>, parse: string -> Option<int>): (r: Option<Table>)
    ensures r.Some? <==> forall k | 0 <= k < |lines| :: ParseRow(lines[k], parse).Some?
    ensures r.Some? ==> (|r.value| == |lines| &&
      forall k | 0 <= k < |lines| :: ParseRow(lines[k], parse) == Some(r.value[k]))
  {
    if |lines| == 0 then Some([])
    else
      match ParseRow(lines[0], parse)
      case None => None
      case Some(row) =>
        match ReadTable(lines[1..], parse)
        case None => None
        case Some(rows) => Some([row] + rows)
  }

  function Id(x: int): int { x }

  /** Python's `sum(row)`. */
  function RowSum(row: seq<int>): int
  {
    SumI(row, Id)
  }

  /** Sum of every entry of a table, the diagonal included. */
  function TableSum(m: Table): int
  {
    SumI(m, RowSum)
  }

  // ---------------------------------------------------------------------
  // Day markers

  /** The marker test `row == ["end\n"] or row == ["end"]`, stated on the
      split row as the scripts state it. */
  predicate IsEnd(line: string)
  {
    Split(line, ',') == ["end\n"] || Split(line, ',') == ["end"]
  }

  /** The split-based test accepts exactly the two literal marker lines. */
  lemma EndMarker(line: string)
    ensures IsEnd(line) <==> line == "end\n" || line == "end"
  {
    if line == "end\n" || line == "end" {
      SplitWithoutSeparator(line, ',');
    }
    if IsEnd(line) {
      JoinSplit(line, ',');
    }
  }

  /** The number of marker lines. */
  function EndCount(lines: seq<string>): nat
  {
    if |lines| == 0 then 0
    else EndCount(lines[..|lines| - 1]) + (if IsEnd(lines[|lines| - 1]) then 1 else 0)
  }

  /** The lines cut at every marker, read front to back as the loop reads
      them: the complete days followed by the (possibly empty) run of lines
      after the last marker. */
  function Pieces(lines: seq<string>): (ps: seq<seq<string>>)
    ensures |ps| == EndCount(lines) + 1
  {
    if |lines| == 0 then [[]]
    else
      var ps := Pieces(lines[..|lines| - 1]);
      var l := lines[|lines| - 1];
      if IsEnd(l) then ps + [[]]
      else ps[..|ps| - 1] + [ps[|ps| - 1] + [l]]
  }

  /** No piece contains a marker line. */
  lemma {:induction false} PiecesMarkerFree(lines: seq<string>)
    ensures forall p, k | 0 <= p < |Pieces(lines)| && 0 <= k < |Pieces(lines)[p]| :: !IsEnd(Pieces(lines)[p][k])
  {
    if |lines| > 0 {
      var init, l := lines[..|lines| - 1], lines[|lines| - 1];
      PiecesMarkerFree(init);
      var ps, ps' := Pieces(init), Pieces(lines);
      var n := |ps|;
      forall p, k | 0 <= p < |ps'| && 0 <= k < |ps'[p]|
        ensures !IsEnd(ps'[p][k])
      {
        if IsEnd(l) {
          assert ps' == ps + [[]];
          assert p < n;
          assert ps'[p] == ps[p];
          assert !IsEnd(ps[p][k]);
        } else if p < n - 1 {
          assert ps'[p] == ps[p];
          assert !IsEnd(ps[p][k]);
        } else {
          assert ps'[p] == ps[n - 1] + [l];
          if k < |ps[n - 1]| {
            assert ps'[p][k] == ps[n - 1][k];
            assert !IsEnd(ps[n - 1][k]);
          } else {
            assert ps'[p][k] == l;
          }
        }
      }
    }
  }

  /** The days a file holds: every piece closed by a marker. */
  function Segments(lines: seq<string>): seq<seq<string>>
  {
    var ps := Pieces(lines);
    ps[..|ps| - 1]
  }

  /** The rows after the last marker, which never become a day. */
  function Unterminated(lines: seq<string>): seq<string>
  {
    var ps := Pieces(lines);
    ps[|ps| - 1]
  }

  function Flatten(ps: seq<seq<string>>): seq<string>
  {
    if |ps| == 0 then [] else ps[0] + Flatten(ps[1..])
  }

  /** The lines that are not markers, in order. */
  function DataLines(lines: seq<string>): seq<string>
  {
    if |lines| == 0 then []
    else
      var l := lines[|lines| - 1];
      DataLines(lines[..|lines| - 1]) + (if IsEnd(l) then [] else [l])
  }

  lemma {:induction false} FlattenSnoc(ps: seq<seq<string>>, q: seq<string>)
    ensures Flatten(ps + [q]) == Flatten(ps) + q
  {
    if |ps| > 0 {
      assert (ps + [q])[1..] == ps[1..] + [q];
      FlattenSnoc(ps[1..], q);
    } else {
      assert ps + [q] == [q];
    }
  }

  /** Cutting at the markers loses and reorders nothing: the pieces, laid
      end to end, are the file's data lines in order. */
  lemma {:induction false} PiecesCoverData(lines: seq<string>)
    ensures Flatten(Pieces(lines)) == DataLines(lines)
  {
    if |lines| > 0 {
      var init, l := lines[..|lines| - 1], lines[|lines| - 1];
      PiecesCoverData(init);
      var ps := Pieces(init);
      if IsEnd(l) {
        FlattenSnoc(ps, []);
      } else {
        var n := |ps|;
        assert ps == ps[..n - 1] + [ps[n - 1]];
        FlattenSnoc(ps[..n - 1], ps[n - 1]);
        FlattenSnoc(ps[..n - 1], ps[n - 1] + [l]);
      }
    }
  }

  /** Appending a marker closes the open piece and opens an empty one. */
  lemma PiecesSnocEnd(lines: seq<string>, l: string)
    requires IsEnd(l)
    ensures Pieces(lines + [l]) == Pieces(lines) + [[]]
  {
    assert (lines + [l])[..|lines|] == lines;
  }

  /** Appending a data line extends the open piece. */
  lemma PiecesSnocData(lines: seq<string>, l: string)
    requires !IsEnd(l)
    ensures var ps := Pieces(lines);
      Pieces(lines + [l]) == ps[..|ps| - 1] + [ps[|ps| - 1] + [l]]
  {
    assert (lines + [l])[..|lines|] == lines;
  }

  /** Lines after the last marker never reach a day: appending marker-free
      lines leaves the days unchanged. */
  lemma {:induction false} TrailingRowsDropped(lines: seq<string>, extra: seq<string>)
    requires forall k | 0 <= k < |extra| :: !IsEnd(extra[k])
    ensures Segments(lines + extra) == Segments(lines)
    ensures Unterminated(lines + extra) == Unterminated(lines) + extra
    decreases |extra|
  {
    if |extra| > 0 {
      var init := extra[..|extra| - 1];
      var l := extra[|extra| - 1];
      assert extra == init + [l];
      TrailingRowsDropped(lines, init);
      assert lines + extra == (lines + init) + [l];
      PiecesSnocData(lines + init, l);
    } else {
      assert lines + extra == lines;
    }
  }

  // ---------------------------------------------------------------------
  // The grouping loop

  /** Every data line of `lines` parses as a row. */
  predicate AllRowsParse(lines: seq<string>, parse: string -> Option<int>)
  {
    forall k | 0 <= k < |lines| :: !IsEnd(lines[k]) ==> ParseRow(lines[k], parse).Some?
  }

  lemma AllRowsParseSnoc(prefix: seq<string>, l: string, parse: string -> Option<int>)
    ensures AllRowsParse(prefix + [l], parse) <==>
      AllRowsParse(prefix, parse) && (IsEnd(l) || ParseRow(l, parse).Some?)
  {
    assert forall k | 0 <= k < |prefix| :: (prefix + [l])[k] == prefix[k];
    assert (prefix + [l])[|prefix|] == l;
  }

  lemma BadRow(lines: seq<string>, i: nat, parse: string -> Option<int>)
    requires i < |lines| && !IsEnd(lines[i]) && ParseRow(lines[i], parse).None?
    ensures !AllRowsParse(lines, parse)
  {
  }

  /** What the demand loop holds after reading `prefix`: one matrix and
      one total per closed day, and the open day's rows and running sum. */
  predicate Grouped(prefix: seq<string>, parse: string -> Option<int>,
                    matrices: seq<Table>, totals: seq<int>, day: Table, dayTotal: int)
  {
    var days := Segments(prefix);
    |matrices| == |totals| == |days| &&
    (forall k | 0 <= k < |matrices| ::
      ReadTable(days[k], parse) == Some(matrices[k]) && totals[k] == TableSum(matrices[k])) &&
    ReadTable(Unterminated(prefix), parse) == Some(day) &&
    dayTotal == TableSum(day)
  }

  /** A marker closes the open day. */
  lemma GroupedEnd(prefix: seq<string>, l: string, parse: string -> Option<int>,
                   matrices: seq<Table>, totals: seq<int>, day: Table, dayTotal: int)
    requires Grouped(prefix, parse, matrices, totals, day, dayTotal) && IsEnd(l)
    ensures Grouped(prefix + [l], parse, matrices + [day], totals + [dayTotal], [], 0)
  {
    PiecesSnocEnd(prefix, l);
    var ps := Pieces(prefix);
    var n := |ps|;
    var days, days' := Segments(prefix), Segments(prefix + [l]);
    assert days' == ps;
    assert days' == days + [ps[n - 1]];
    assert Unterminated(prefix + [l]) == [];
    var ms, ts := matrices + [day], totals + [dayTotal];
    forall k | 0 <= k < |ms|
      ensures ReadTable(days'[k], parse) == Some(ms[k]) && ts[k] == TableSum(ms[k])
    {
      if k < |matrices| {
        assert days'[k] == days[k] && ms[k] == matrices[k] && ts[k] == totals[k];
      } else {
        assert days'[k] == ps[n - 1] && ms[k] == day && ts[k] == dayTotal;
      }
    }
  }

  /** A data row joins the open day. */
  lemma GroupedRow(prefix: seq<string>, l: string, parse: string -> Option<int>,
                   matrices: seq<Table>, totals: seq<int>, day: Table, dayTotal: int, row: seq<int>)
    requires Grouped(prefix, parse, matrices, totals, day, dayTotal)
    requires !IsEnd(l) && ParseRow(l, parse) == Some(row)
    ensures Grouped(prefix + [l], parse, matrices, totals, day + [row], dayTotal + RowSum(row))
  {
    PiecesSnocData(prefix, l);
    var ps := Pieces(prefix);
    var n := |ps|;
    var ps' := ps[..n - 1] + [ps[n - 1] + [l]];
    assert Pieces(prefix + [l]) == ps';
    assert ps'[..n - 1] == ps[..n - 1];
    assert Segments(prefix + [l]) == Segments(prefix);
    assert Unterminated(prefix + [l]) == Unterminated(prefix) + [l];
    ReadTableSnoc(Unterminated(prefix), l, parse, day, row);
    TableSumSnoc(day, row);
  }

  lemma TableSumSnoc(m: Table, row: seq<int>)
    ensures TableSum(m + [row]) == TableSum(m) + RowSum(row)
  {
    SumIConcat(m, [row], RowSum);
    assert SumI([row], RowSum) == RowSum(row) + SumI([row][1..], RowSum);
  }

  /** Once every line is read, the closed days are the file's segments. */
  lemma GroupedAll(lines: seq<string>, parse: string -> Option<int>,
                   matrices: seq<Table>, totals: seq<int>, day: Table, dayTotal: int)
    requires Grouped(lines, parse, matrices, totals, day, dayTotal)
    ensures var days := Segments(lines);
      |matrices| == |days| == EndCount(lines) && |totals| == |days| &&
      forall k | 0 <= k < |days| ::
        ReadTable(days[k], parse) == Some(matrices[k]) && totals[k] == TableSum(matrices[k])
  {
  }

  /** The demand loop's variables: `demands_matrix`,
      `total_daily_demands`, `day_demands_matrix` and `day_total`. */
  datatype Reader = Reader(matrices: seq<Table>, totals: seq<int>, day: Table, dayTotal: int)

  /** One pass of the loop body: a marker closes the current day,
      appending its matrix and running total; any other line is parsed as
      a row, added to the current day and summed into the running total;
      `None` when the line does not parse (ValueError). */
  function Absorb(st: Reader, line: string, parse: string -> Option<int>): Option<Reader>
  {
    if IsEnd(line) then Some(Reader(st.matrices + [st.day], st.totals + [st.dayTotal], [], 0))
    else
      match ParseRow(line, parse)
      case None => None
      case Some(row) => Some(Reader(st.matrices, st.totals, st.day + [row], st.dayTotal + RowSum(row)))
  }

  /** The loop run over `lines` from empty variables; `Err(k)` when line k
      is the first that does not parse. */
  function ReadAll(lines: seq<string>, parse: string -> Option<int>): Result<Reader, nat>
  {
    if |lines| == 0 then Ok(Reader([], [], [], 0))
    else
      match ReadAll(lines[..|lines| - 1], parse)
      case Err(e) => Err(e)
      case Ok(st) =>
        match Absorb(st, lines[|lines| - 1], parse)
        case None => Err(|lines| - 1)
        case Some(st') => Ok(st')
  }

  /** The loop succeeds exactly when every data line parses, and then its
      variables hold the file's days; otherwise it stops at the first bad
      line. */
  lemma {:induction false} ReadAllSpec(lines: seq<string>, parse: string -> Option<int>)
    ensures ReadAll(lines, parse).Ok? <==> AllRowsParse(lines, parse)
    ensures ReadAll(lines, parse).Ok? ==>
      var st := ReadAll(lines, parse).value;
      Grouped(lines, parse, st.matrices, st.totals, st.day, st.dayTotal)
    ensures ReadAll(lines, parse).Err? ==>
      var e := ReadAll(lines, parse).error;
      e < |lines| && !IsEnd(lines[e]) && ParseRow(lines[e], parse).None? && AllRowsParse(lines[..e], parse)
  {
    if |lines| == 0 {
      assert Segments(lines) == [] && Unterminated(lines) == [];
    } else {
      var init, l := lines[..|lines| - 1], lines[|lines| - 1];
      assert lines == init + [l];
      ReadAllSpec(init, parse);
      AllRowsParseSnoc(init, l, parse);
      match ReadAll(init, parse)
      case Err(e) =>
        assert lines[e] == init[e] && lines[..e] == init[..e];
      case Ok(st) =>
        if IsEnd(l) {
          GroupedEnd(init, l, parse, st.matrices, st.totals, st.day, st.dayTotal);
        } else if ParseRow(l, parse).Some? {
          GroupedRow(init, l, parse, st.matrices, st.totals, st.day, st.dayTotal, ParseRow(l, parse).value);
        } else {
          assert lines[..|init|] == init;
        }
    }
  }

  /** The demand loop over the file's lines.  A line that does not parse
      stops the scripts with ValueError; the model reports the index of the
      first such line. */
  method GroupDays(lines: seq<string>, parse: string -> Option<int>) returns (r: Result<Grouping, nat>)
    ensures r.Ok? <==> AllRowsParse(lines, parse)
    ensures r.Err? ==> (r.error < |lines| && !IsEnd(lines[r.error]) &&
      ParseRow(lines[r.error], parse).None? && AllRowsParse(lines[..r.error], parse))
    ensures r.Ok? ==>
      var days := Segments(lines);
      |r.value.matrices| == |days| == EndCount(lines) && |r.value.totals| == |days| &&
      forall k | 0 <= k < |days| ::
        ReadTable(days[k], parse) == Some(r.value.matrices[k]) &&
        r.value.totals[k] == TableSum(r.value.matrices[k])
  {
    var st := Reader([], [], [], 0);
    var i := 0;
    while i < |lines|
      invariant 0 <= i <= |lines|
      invariant ReadAll(lines[..i], parse) == Ok(st)
    {
      assert lines[..i + 1][..i] == lines[..i];
      var next := Absorb(st, lines[i], parse);
      if next.None? {
        ReadAllSpec(lines[..i + 1], parse);
        assert lines[..i + 1][i] == lines[i] && lines[..i + 1][..i] == lines[..i];
        BadRow(lines, i, parse);
        return Err(i);
      }
      st := next.value;
      i := i + 1;
    }
    assert lines[..i] == lines;
    ReadAllSpec(lines, parse);
    GroupedAll(lines, parse, st.matrices, st.totals, st.day, st.dayTotal);
    return Ok(Grouping(st.matrices, st.totals));
  }

  lemma ReadTableSnoc(lines: seq<string>, l: string, parse: string -> Option<int>, m: Table, row: seq<int>)
    requires ReadTable(lines, parse) == Some(m)
    requires ParseRow(l, parse) == Some(row)
    ensures ReadTable(lines + [l], parse) == Some(m + [row])
  {
    var r := ReadTable(lines + [l], parse);
    assert forall k | 0 <= k < |lines| :: (lines + [l])[k] == lines[k];
    assert r.Some?;
    assert r.value == m + [row];
  }
}
