/**
 The column filter of the sheet reader: the three header rows become the
 parallel lists `types`, `descs` and `names`, and a column whose name carries
 the ignore-field mark is deleted from all three and from every data row.

 The deletion happens while `enumerate` walks `names`: after deleting at
 position `col` the walk continues at `col + 1` of the SHORTENED list, so the
 column that slid into `col` is never looked at. `Walk` reproduces that loop
 step for step; `Plan` says, on the original column order, which columns it
 ends up removing.
 */
module Columns {
  import opened Outcomes
  import opened Text
  import opened Cells

  /** The three header rows of a sheet, as parallel lists. */
  datatype Define = Define(types: seq<Cell>, descs: seq<Cell>, names: seq<Cell>)

  /** A sheet after reading: its header lists and its data rows. */
  datatype SheetData = SheetData(define: Define, rows: seq<seq<Cell>>)

  /** Every header list and every data row has one entry per column, as in a
      grid read from a rectangular range. */
  predicate Rectangular(sd: SheetData)
  {
    && |sd.define.types| == |sd.define.names|
    && |sd.define.descs| == |sd.define.names|
    && forall i :: 0 <= i < |sd.rows| ==> |sd.rows[i]| == |sd.define.names|
  }

  /** A header name the filter removes when it looks at it: a non-empty
      string starting with the mark. */
  predicate Marked(c: Cell, mark: string)
  {
    Truthy(c) && c.Str? && StartsWith(c.s, mark)
  }

  /** A header name the filter cannot look at: truthy but not a string, so
      `.startswith` raises `AttributeError`. */
  predicate Unreadable(c: Cell)
  {
    Truthy(c) && !c.Str?
  }

  /** `del xs[i]` */
  function DeleteAt<X>(xs: seq<X>, i: nat): seq<X>
    requires i < |xs|
  {
    xs[..i] + xs[i + 1..]
  }

  /** `for row in rows: del row[col]` */
  function DeleteColumn(rows: seq<seq<Cell>>, col: nat): (r: Result<seq<seq<Cell>>>)
    ensures r.Ok? <==> forall i :: 0 <= i < |rows| ==> col < |rows[i]|
    ensures r.Err? ==> r.error == IndexError
    ensures r.Ok? ==> |r.value| == |rows|
    ensures r.Ok? ==> forall i :: 0 <= i < |rows| ==> r.value[i] == rows[i][..col] + rows[i][col + 1..]
  {
    if rows == [] then Ok([])
    else if col >= |rows[0]| then Err(IndexError)
    else
      var rest :- DeleteColumn(rows[1..], col);
      assert forall i :: 1 <= i < |rows| ==> rows[1..][i - 1] == rows[i];
      Ok([DeleteAt(rows[0], col)] + rest)
  }

  /** The `enumerate` loop over `names`, at position `col` of the current
      (possibly already shortened) lists. Whatever it deletes, it deletes from
      every list at once: all of them lose the same number of entries. */
  function Walk(sd: SheetData, mark: string, col: nat): (r: Result<SheetData>)
    ensures r.Ok? ==> |r.value.rows| == |sd.rows|
    ensures r.Err? ==> r.error == IndexError || r.error == AttributeError
    ensures r.Ok? ==>
      var lost := |sd.define.names| - |r.value.define.names|;
      && lost >= 0
      && |r.value.define.types| == |sd.define.types| - lost
      && |r.value.define.descs| == |sd.define.descs| - lost
      && forall i :: 0 <= i < |sd.rows| ==> |r.value.rows[i]| == |sd.rows[i]| - lost
    decreases |sd.define.names| - col
  {
    var d := sd.define;
    if col >= |d.names| then Ok(sd)
    else
      var field := d.names[col];
      if !Truthy(field) then Walk(sd, mark, col + 1)
      else if !field.Str? then Err(AttributeError)
      else if !StartsWith(field.s, mark) then Walk(sd, mark, col + 1)
      else if col >= |d.types| || col >= |d.descs| then Err(IndexError)
      else
        var rows :- DeleteColumn(sd.rows, col);
        var d' := Define(DeleteAt(d.types, col), DeleteAt(d.descs, col), DeleteAt(d.names, col));
        Walk(SheetData(d', rows), mark, col + 1)
  }

  /** The column filter of one sheet. On a rectangular sheet it succeeds
      exactly when `Plan` does, and then it removes exactly the planned
      columns from every list, keeping the order of the others. */
  function FilterColumns(sd: SheetData, mark: string): (r: Result<SheetData>)
    ensures Rectangular(sd) ==> (r.Ok? <==> Plan(sd.define.names, mark, false).Ok?)
    ensures r.Err? ==> r.error == IndexError || r.error == AttributeError
    ensures Rectangular(sd) && r.Ok? ==>
      && Rectangular(r.value)
      && r.value == Remaining(sd, 0, Plan(sd.define.names, mark, false).value)
  {
    var r := Walk(sd, mark, 0);
    assert Rectangular(sd) ==>
      && (r.Ok? <==> Plan(sd.define.names, mark, false).Ok?)
      && (r.Ok? ==> Rectangular(r.value) && r.value == Remaining(sd, 0, Plan(sd.define.names, mark, false).value))
    by {
      if Rectangular(sd) {
        WalkFollowsPlan(sd, mark, 0);
        assert sd.define.names[0..] == sd.define.names;
        if r.Ok? {
          RemainingRectangular(sd, 0, Plan(sd.define.names, mark, false).value);
        }
      }
    }
    r
  }

  /** Where the filter leaves column `i` of a sheet it does not remove:
      after the surviving columns to its left. */
  function Position(flags: seq<bool>, i: nat): nat
    requires i <= |flags|
  {
    Survivors(flags[..i])
  }

  /** The filter keeps every column it does not remove, whole and in its
      original order: header entries and the cells of every row move together
      to the column's new position, and positions grow with the original
      column index. */
  lemma FilterKeepsOrder(sd: SheetData, mark: string)
    requires Rectangular(sd) && FilterColumns(sd, mark).Ok?
    ensures var flags := Plan(sd.define.names, mark, false).value;
      var out := FilterColumns(sd, mark).value;
      && |out.define.names| == Survivors(flags)
      && (forall i :: 0 <= i < |sd.define.names| && !flags[i] ==>
            && Position(flags, i) < |out.define.names|
            && out.define.names[Position(flags, i)] == sd.define.names[i]
            && out.define.types[Position(flags, i)] == sd.define.types[i]
            && out.define.descs[Position(flags, i)] == sd.define.descs[i])
      && (forall r, i :: 0 <= r < |sd.rows| && 0 <= i < |sd.define.names| && !flags[i] ==>
            out.rows[r][Position(flags, i)] == sd.rows[r][i])
      && (forall i, j :: 0 <= i < j < |sd.define.names| && !flags[i] ==> Position(flags, i) < Position(flags, j))
  {
    var d := sd.define;
    var flags := Plan(d.names, mark, false).value;
    var out := FilterColumns(sd, mark).value;
    assert out == Remaining(sd, 0, flags);
    DropFromStart(d.names, flags);
    DropFromStart(d.types, flags);
    DropFromStart(d.descs, flags);
    DropPositions(d.names, flags);
    DropPositions(d.types, flags);
    DropPositions(d.descs, flags);
    forall r, i | 0 <= r < |sd.rows| && 0 <= i < |d.names| && !flags[i]
      ensures out.rows[r][Position(flags, i)] == sd.rows[r][i]
    {
      DropFromStart(sd.rows[r], flags);
      DropPositions(sd.rows[r], flags);
    }
    forall i, j | 0 <= i < j < |d.names| && !flags[i] ensures Position(flags, i) < Position(flags, j) {
      SurvivorsGrow(flags, i, j);
    }
  }

  lemma DropFromStart<X>(xs: seq<X>, flags: seq<bool>)
    requires |flags| == |xs|
    ensures DropFrom(xs, 0, flags) == Drop(xs, flags)
  {
    assert xs[..0] == [] && xs[0..] == xs;
  }

  /** Which columns of `names` the filter removes, read on the original order;
      `skip` says the first column is the one that slid into a deleted slot.
      A column is removed exactly when it is marked and its left neighbour was
      not removed: so a removed column is always marked (blank names are
      never removed), and no two neighbours are both removed. */
  function Plan(names: seq<Cell>, mark: string, skip: bool): (r: Result<seq<bool>>)
    ensures r.Ok? ==> |r.value| == |names|
    ensures r.Ok? && |names| > 0 ==> (r.value[0] <==> !skip && Marked(names[0], mark))
    ensures r.Ok? ==> forall j :: 0 < j < |names| ==> (r.value[j] <==> !r.value[j - 1] && Marked(names[j], mark))
    ensures r.Ok? ==> forall j :: 0 <= j < |names| && r.value[j] ==> Marked(names[j], mark)
    ensures r.Ok? ==> forall j :: 0 <= j < |names| - 1 && r.value[j] ==> !r.value[j + 1]
    ensures (forall j :: 0 <= j < |names| ==> !Unreadable(names[j])) ==> r.Ok?
    ensures r.Err? ==> r.error == AttributeError && exists j :: 0 <= j < |names| && Unreadable(names[j])
  {
    if names == [] then Ok([])
    else if !skip && Unreadable(names[0]) then Err(AttributeError)
    else
      var removed := !skip && Marked(names[0], mark);
      var rest := Plan(names[1..], mark, removed);
      assert forall j :: 1 <= j < |names| ==> names[1..][j - 1] == names[j];
      match rest
      case Err(e) => Err(e)
      case Ok(flags) => Ok([removed] + flags)
  }

  /** The loop examines column `j` and finds its name unreadable: the name
      is truthy but not text, and the column is not the one that slid into
      the slot of a deleted column (for the first column, it is not
      skipped). What the loop did with the columns before `j` is `Plan` of
      those columns. */
  ghost predicate RaisesAt(names: seq<Cell>, mark: string, skip: bool, j: nat)
    requires j < |names|
  {
    && Unreadable(names[j])
    && Plan(names[..j], mark, skip).Ok?
    && (if j == 0 then !skip else !Plan(names[..j], mark, skip).value[j - 1])
  }

  /** The filter raises exactly when the loop examines an unreadable name. */
  lemma {:induction false} PlanRaisesExactly(names: seq<Cell>, mark: string, skip: bool)
    ensures Plan(names, mark, skip).Err? <==> exists j :: 0 <= j < |names| && RaisesAt(names, mark, skip, j)
  {
    if names == [] {
    } else if !skip && Unreadable(names[0]) {
      assert names[..0] == [];
      assert RaisesAt(names, mark, skip, 0);
    } else {
      var removed := !skip && Marked(names[0], mark);
      var tail := names[1..];
      PlanRaisesExactly(tail, mark, removed);
      forall j | 1 <= j < |names|
        ensures RaisesAt(names, mark, skip, j) <==> RaisesAt(tail, mark, removed, j - 1)
      {
        PlanPrefixStep(names, mark, skip, j);
        assert names[j] == tail[j - 1];
      }
      if Plan(names, mark, skip).Err? {
        var k :| 0 <= k < |tail| && RaisesAt(tail, mark, removed, k);
        assert RaisesAt(names, mark, skip, k + 1);
      } else {
        forall j | 0 <= j < |names| ensures !RaisesAt(names, mark, skip, j) {
          if j > 0 {
            assert !RaisesAt(tail, mark, removed, j - 1);
          }
        }
      }
    }
  }

  /** `Plan` of a non-empty prefix whose first column does not raise: that
      column's flag, then `Plan` of the rest of the prefix. */
  lemma PlanPrefixStep(names: seq<Cell>, mark: string, skip: bool, j: nat)
    requires 1 <= j <= |names| && !(!skip && Unreadable(names[0]))
    ensures var removed := !skip && Marked(names[0], mark);
      && (Plan(names[..j], mark, skip).Ok? <==> Plan(names[1..][..j - 1], mark, removed).Ok?)
      && (Plan(names[..j], mark, skip).Ok? ==>
            Plan(names[..j], mark, skip).value == [removed] + Plan(names[1..][..j - 1], mark, removed).value)
  {
    var p := names[..j];
    assert p[0] == names[0];
    assert p[1..] == names[1..][..j - 1];
  }

  /** `xs` without the positions `flags` marks, in their original order. */
  function Drop<X>(xs: seq<X>, flags: seq<bool>): (r: seq<X>)
    requires |flags| == |xs|
    ensures |r| == Survivors(flags)
  {
    if xs == [] then []
    else (if flags[0] then [] else [xs[0]]) + Drop(xs[1..], flags[1..])
  }

  /** Number of columns that survive. */
  function Survivors(flags: seq<bool>): nat
  {
    if flags == [] then 0 else (if flags[0] then 0 else 1) + Survivors(flags[1..])
  }

  /** Every surviving entry of `xs` is found in the result at the position
      given by the number of survivors before it, so the survivors keep their
      relative order and nothing else is kept. */
  lemma {:induction false} DropPositions<X>(xs: seq<X>, flags: seq<bool>)
    requires |flags| == |xs|
    ensures |Drop(xs, flags)| == Survivors(flags)
    ensures forall i :: 0 <= i < |xs| && !flags[i] ==>
      Survivors(flags[..i]) < |Drop(xs, flags)| && Drop(xs, flags)[Survivors(flags[..i])] == xs[i]
  {
    forall i | 0 <= i < |xs| && !flags[i]
      ensures Survivors(flags[..i]) < |Drop(xs, flags)| && Drop(xs, flags)[Survivors(flags[..i])] == xs[i]
    {
      DropPosition(xs, flags, i);
    }
  }

  /** The survivor at `i` lands after the survivors to its left. */
  lemma {:induction false} DropPosition<X>(xs: seq<X>, flags: seq<bool>, i: nat)
    requires |flags| == |xs| && i < |xs| && !flags[i]
    ensures Survivors(flags[..i]) < |Drop(xs, flags)| && Drop(xs, flags)[Survivors(flags[..i])] == xs[i]
  {
    if i > 0 {
      DropPosition(xs[1..], flags[1..], i - 1);
      assert flags[..i][1..] == flags[1..][..i - 1];
      assert xs[1..][i - 1] == xs[i];
    } else {
      assert flags[..0] == [];
    }
  }

  /** The survivor count grows past every survivor. */
  lemma {:induction false} SurvivorsGrow(flags: seq<bool>, i: nat, j: nat)
    requires i < j <= |flags| && !flags[i]
    ensures Survivors(flags[..i]) < Survivors(flags[..j])
  {
    if i > 0 {
      SurvivorsGrow(flags[1..], i - 1, j - 1);
      assert flags[..i][1..] == flags[1..][..i - 1];
      assert flags[..j][1..] == flags[1..][..j - 1];
    } else {
      assert flags[..j][1..] == flags[1..][..j - 1];
    }
  }

  /** The lists of `sd` with the flagged columns at and after `col` removed. */
  function DropFrom<X>(xs: seq<X>, col: nat, flags: seq<bool>): seq<X>
    requires col <= |xs| && |flags| == |xs| - col
  {
    xs[..col] + Drop(xs[col..], flags)
  }

  function Remaining(sd: SheetData, col: nat, flags: seq<bool>): SheetData
    requires Rectangular(sd) && col <= |sd.define.names|
    requires |flags| == |sd.define.names| - col
  {
    var d := sd.define;
    SheetData(
      Define(DropFrom(d.types, col, flags), DropFrom(d.descs, col, flags), DropFrom(d.names, col, flags)),
      seq(|sd.rows|, i requires 0 <= i < |sd.rows| => DropFrom(sd.rows[i], col, flags)))
  }

  lemma RemainingRectangular(sd: SheetData, col: nat, flags: seq<bool>)
    requires Rectangular(sd) && col <= |sd.define.names|
    requires |flags| == |sd.define.names| - col
    ensures Rectangular(Remaining(sd, col, flags))
  {
  }

  /** What the walk from `col` does, stated through `Plan`. */
  ghost predicate FollowsPlan(sd: SheetData, mark: string, col: nat)
    requires Rectangular(sd) && col <= |sd.define.names|
  {
    Walk(sd, mark, col) ==
      match Plan(sd.define.names[col..], mark, false)
      case Err(e) => Err(e)
      case Ok(flags) => Ok(Remaining(sd, col, flags))
  }

  /** From position `col` on, the mutate-while-enumerate loop removes exactly
      the columns `Plan` selects on the remaining suffix of `names`. */
  lemma {:induction false} WalkFollowsPlan(sd: SheetData, mark: string, col: nat)
    requires Rectangular(sd) && col <= |sd.define.names|
    ensures FollowsPlan(sd, mark, col)
    decreases |sd.define.names| - col, 1
  {
    var names := sd.define.names;
    if col == |names| {
      EndCase(sd, mark, col);
    } else if Unreadable(names[col]) {
      UnreadableCase(sd, mark, col);
    } else if !Marked(names[col], mark) {
      KeepCase(sd, mark, col);
    } else if col + 1 == |names| {
      LastCase(sd, mark, col);
    } else {
      DeleteCase(sd, mark, col);
    }
  }

  lemma UnreadableCase(sd: SheetData, mark: string, col: nat)
    requires Rectangular(sd) && col < |sd.define.names|
    requires Unreadable(sd.define.names[col])
    ensures FollowsPlan(sd, mark, col)
  {
    PlanStep(sd.define.names, mark, col);
  }

  /** The sheet right after the deletion at `col`. */
  function Deleted(sd: SheetData, col: nat): (r: SheetData)
    requires Rectangular(sd) && col < |sd.define.names|
    ensures Rectangular(r) && |r.define.names| == |sd.define.names| - 1
  {
    var d := sd.define;
    SheetData(Define(DeleteAt(d.types, col), DeleteAt(d.descs, col), DeleteAt(d.names, col)),
              DeleteColumn(sd.rows, col).value)
  }

  /** One step of `Plan` on the suffix starting at `col`. */
  lemma PlanStep(names: seq<Cell>, mark: string, col: nat)
    requires col < |names|
    ensures Unreadable(names[col]) ==> Plan(names[col..], mark, false) == Err(AttributeError)
    ensures !Unreadable(names[col]) && !Marked(names[col], mark) ==>
      Plan(names[col..], mark, false) ==
        match Plan(names[col + 1..], mark, false)
        case Err(e) => Err(e)
        case Ok(flags) => Ok([false] + flags)
    ensures Marked(names[col], mark) && col + 1 == |names| ==> Plan(names[col..], mark, false) == Ok([true])
    ensures Marked(names[col], mark) && col + 1 < |names| ==>
      Plan(names[col..], mark, false) ==
        match Plan(names[col + 2..], mark, false)
        case Err(e) => Err(e)
        case Ok(flags) => Ok([true, false] + flags)
  {
    var suffix := names[col..];
    assert suffix[0] == names[col] && suffix[1..] == names[col + 1..];
    if Marked(names[col], mark) {
      assert Plan(suffix, mark, false) ==
        match Plan(suffix[1..], mark, true)
        case Err(e) => Err(e)
        case Ok(flags) => Ok([true] + flags);
    }
    if col + 1 < |names| {
      assert suffix[1..][0] == names[col + 1];
      assert suffix[1..][1..] == names[col + 2..];
      assert Plan(suffix[1..], mark, true) ==
        match Plan(names[col + 2..], mark, false)
        case Err(e) => Err(e)
        case Ok(flags) => Ok([false] + flags);
      match Plan(names[col + 2..], mark, false)
      case Err(e) =>
      case Ok(flags) =>
        assert [true] + ([false] + flags) == [true, false] + flags;
    } else {
      assert suffix[1..] == [];
      assert Plan([], mark, true) == Ok([]);
      assert [true] + [] == [true];
    }
  }

  lemma EndCase(sd: SheetData, mark: string, col: nat)
    requires Rectangular(sd) && col == |sd.define.names|
    ensures FollowsPlan(sd, mark, col)
  {
    var d := sd.define;
    assert d.names[col..] == [];
    assert Remaining(sd, col, []) == sd by {
      assert DropFrom(d.types, col, []) == d.types;
      assert DropFrom(d.descs, col, []) == d.descs;
      assert DropFrom(d.names, col, []) == d.names;
      forall i | 0 <= i < |sd.rows| ensures DropFrom(sd.rows[i], col, []) == sd.rows[i] {
      }
    }
  }

  lemma KeepCase(sd: SheetData, mark: string, col: nat)
    requires Rectangular(sd) && col < |sd.define.names|
    requires !Unreadable(sd.define.names[col]) && !Marked(sd.define.names[col], mark)
    ensures FollowsPlan(sd, mark, col)
    decreases |sd.define.names| - col, 0
  {
    WalkFollowsPlan(sd, mark, col + 1);
    PlanStep(sd.define.names, mark, col);
    match Plan(sd.define.names[col + 1..], mark, false)
    case Err(e) =>
    case Ok(flags) =>
      KeepStep(sd, col, flags);
  }

  lemma LastCase(sd: SheetData, mark: string, col: nat)
    requires Rectangular(sd) && col + 1 == |sd.define.names|
    requires Marked(sd.define.names[col], mark)
    ensures FollowsPlan(sd, mark, col)
  {
    PlanStep(sd.define.names, mark, col);
    DeleteLastStep(sd, col);
    var sd' := Deleted(sd, col);
    assert Walk(sd', mark, col + 1) == Ok(sd');
  }

  lemma DeleteCase(sd: SheetData, mark: string, col: nat)
    requires Rectangular(sd) && col + 1 < |sd.define.names|
    requires Marked(sd.define.names[col], mark)
    ensures FollowsPlan(sd, mark, col)
    decreases |sd.define.names| - col, 0
  {
    var sd' := Deleted(sd, col);
    WalkFollowsPlan(sd', mark, col + 1);
    PlanStep(sd.define.names, mark, col);
    assert sd'.define.names[col + 1..] == sd.define.names[col + 2..];
    match Plan(sd.define.names[col + 2..], mark, false)
    case Err(e) =>
    case Ok(flags) =>
      DeleteStep(sd, sd', col, flags);
  }

  /** A kept column at `col` is carried over unchanged. */
  lemma KeepStep(sd: SheetData, col: nat, flags: seq<bool>)
    requires Rectangular(sd) && col < |sd.define.names|
    requires |flags| == |sd.define.names| - col - 1
    ensures Remaining(sd, col + 1, flags) == Remaining(sd, col, [false] + flags)
  {
    forall xs: seq<Cell> | |xs| == |sd.define.names|
      ensures DropFrom(xs, col + 1, flags) == DropFrom(xs, col, [false] + flags)
    {
      DropKeep(xs, col, flags);
    }
  }

  lemma DropKeep<X>(xs: seq<X>, col: nat, flags: seq<bool>)
    requires col < |xs| && |flags| == |xs| - col - 1
    ensures DropFrom(xs, col + 1, flags) == DropFrom(xs, col, [false] + flags)
  {
    assert xs[col..][1..] == xs[col + 1..];
    assert ([false] + flags)[1..] == flags;
    assert xs[..col + 1] == xs[..col] + [xs[col]];
  }

  /** Deleting the last column. */
  lemma DeleteLastStep(sd: SheetData, col: nat)
    requires Rectangular(sd) && col + 1 == |sd.define.names|
    ensures
      var d := sd.define;
      DeleteColumn(sd.rows, col).Ok? &&
      SheetData(Define(DeleteAt(d.types, col), DeleteAt(d.descs, col), DeleteAt(d.names, col)),
                DeleteColumn(sd.rows, col).value)
      == Remaining(sd, col, [true])
  {
    forall xs: seq<Cell> | |xs| == |sd.define.names|
      ensures DeleteAt(xs, col) == DropFrom(xs, col, [true])
    {
      assert xs[col + 1..] == [];
      assert Drop(xs[col..], [true]) == [];
    }
  }

  /** Deleting at `col`, then resuming at `col + 1` of the shortened lists:
      the column that slid into `col` is kept without being looked at. */
  lemma DeleteStep(sd: SheetData, sd': SheetData, col: nat, flags: seq<bool>)
    requires Rectangular(sd) && col + 1 < |sd.define.names|
    requires DeleteColumn(sd.rows, col).Ok?
    requires sd' == SheetData(
      Define(DeleteAt(sd.define.types, col), DeleteAt(sd.define.descs, col), DeleteAt(sd.define.names, col)),
      DeleteColumn(sd.rows, col).value)
    requires Rectangular(sd')
    requires |flags| == |sd.define.names| - col - 2
    ensures Remaining(sd', col + 1, flags) == Remaining(sd, col, [true, false] + flags)
  {
    forall xs: seq<Cell> | |xs| == |sd.define.names|
      ensures DropFrom(DeleteAt(xs, col), col + 1, flags) == DropFrom(xs, col, [true, false] + flags)
    {
      DropDelete(xs, col, flags);
    }
  }

  lemma DropDelete<X>(xs: seq<X>, col: nat, flags: seq<bool>)
    requires col + 1 < |xs| && |flags| == |xs| - col - 2
    ensures DropFrom(DeleteAt(xs, col), col + 1, flags) == DropFrom(xs, col, [true, false] + flags)
  {
    var ys := DeleteAt(xs, col);
    assert ys[..col + 1] == xs[..col] + [xs[col + 1]];
    assert ys[col + 1..] == xs[col + 2..];
    var tail := xs[col..];
    assert tail[1..][1..] == xs[col + 2..];
    assert ([true, false] + flags)[1..] == [false] + flags;
    assert ([false] + flags)[1..] == flags;
    assert Drop(tail, [true, false] + flags) == Drop(tail[1..], [false] + flags);
    assert Drop(tail[1..], [false] + flags) == [xs[col + 1]] + Drop(xs[col + 2..], flags);
  }
}
