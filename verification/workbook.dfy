/**
 The workbook reader: every sheet not marked as ignored is read as a grid,
 column-filtered, and then converted into a keyed table. The result maps
 sheet names to tables, in sheet order.
 */
module Workbook {
  import opened Outcomes
  import opened Text
  import opened Dicts
  import opened Cells
  import opened Columns
  import opened Tables

  /** A sheet as the spreadsheet reader delivers it: its name and the raw
      grid of its used range (rows of cells). */
  datatype Sheet = Sheet(name: string, grid: seq<seq<Cell>>)

  predicate Kept(s: Sheet, sheetMark: string)
  {
    !StartsWith(s.name, sheetMark)
  }

  /** The sheet filter: the sheets whose name does not start with the mark,
      in workbook order. */
  function KeptSheets(sheets: seq<Sheet>, sheetMark: string): (r: seq<Sheet>)
    ensures forall s :: s in r <==> s in sheets && Kept(s, sheetMark)
    ensures |r| <= |sheets|
  {
    if sheets == [] then []
    else
      var rest := KeptSheets(sheets[1..], sheetMark);
      assert forall s :: s in sheets <==> s == sheets[0] || s in sheets[1..];
      if Kept(sheets[0], sheetMark) then [sheets[0]] + rest else rest
  }

  /** Filtering twice is filtering once: the second pass finds nothing. */
  lemma {:induction false} KeptSheetsIdempotent(sheets: seq<Sheet>, sheetMark: string)
    ensures KeptSheets(KeptSheets(sheets, sheetMark), sheetMark) == KeptSheets(sheets, sheetMark)
  {
    if sheets != [] {
      KeptSheetsIdempotent(sheets[1..], sheetMark);
      var rest := KeptSheets(sheets[1..], sheetMark);
      if Kept(sheets[0], sheetMark) {
        assert ([sheets[0]] + rest)[1..] == rest;
      }
    }
  }

  /** The elements of `xs` that `keep` accepts, in their order. */
  function Filter<X>(xs: seq<X>, keep: X -> bool): seq<X>
  {
    if xs == [] then [] else (if keep(xs[0]) then [xs[0]] else []) + Filter(xs[1..], keep)
  }

  /** Filtering keeps order: filtering a sequence is filtering its front and
      its back, one after the other. */
  lemma {:induction false} FilterConcat<X>(a: seq<X>, b: seq<X>, keep: X -> bool)
    ensures Filter(a + b, keep) == Filter(a, keep) + Filter(b, keep)
  {
    if a == [] {
      assert a + b == b;
    } else {
      FilterConcat(a[1..], b, keep);
      assert (a + b)[0] == a[0];
      assert (a + b)[1..] == a[1..] + b;
    }
  }

  /** The sheet filter keeps workbook order: it is `Filter` with `Kept`. */
  lemma {:induction false} KeptSheetsInOrder(sheets: seq<Sheet>, sheetMark: string)
    ensures KeptSheets(sheets, sheetMark) == Filter(sheets, s => Kept(s, sheetMark))
  {
    if sheets != [] {
      KeptSheetsInOrder(sheets[1..], sheetMark);
      KeptSheetsHead(sheets, sheetMark);
    }
  }

  /** Filtering a sequence of sheets is filtering its front and its back,
      one after the other. */
  lemma KeptSheetsConcat(a: seq<Sheet>, b: seq<Sheet>, sheetMark: string)
    ensures KeptSheets(a + b, sheetMark) == KeptSheets(a, sheetMark) + KeptSheets(b, sheetMark)
  {
    KeptSheetsInOrder(a + b, sheetMark);
    KeptSheetsInOrder(a, sheetMark);
    KeptSheetsInOrder(b, sheetMark);
    FilterConcat(a, b, s => Kept(s, sheetMark));
  }

  lemma KeptSheetsHead(xs: seq<Sheet>, sheetMark: string)
    requires xs != []
    ensures KeptSheets(xs, sheetMark) == (if Kept(xs[0], sheetMark) then [xs[0]] else []) + KeptSheets(xs[1..], sheetMark)
  {
  }

  /** The three header rows and the data rows of a grid; a grid of fewer than
      three rows raises `IndexError`. Nothing is lost: the types, the
      descriptions, the names and then the data rows are the grid again. */
  function ReadSheet(grid: seq<seq<Cell>>): (r: Result<SheetData>)
    ensures r.Ok? <==> |grid| >= 3
    ensures r.Ok? ==> |r.value.rows| == |grid| - 3
    ensures r.Ok? ==> [r.value.define.types, r.value.define.descs, r.value.define.names] + r.value.rows == grid
    ensures r.Err? ==> r.error == IndexError
  {
    if |grid| < 3 then Err(IndexError)
    else Ok(SheetData(Define(grid[0], grid[1], grid[2]), grid[3..]))
  }

  /** One sheet read and column-filtered, paired with its name. */
  function Prepared(s: Sheet, fieldMark: string): (r: Result<(string, SheetData)>)
    ensures r.Ok? ==> r.value.0 == s.name
    ensures r.Err? ==> ReaderError(r.error)
  {
    var sd :- ReadSheet(s.grid);
    var filtered :- FilterColumns(sd, fieldMark);
    Ok((s.name, filtered))
  }

  /** One prepared sheet converted into its table, paired with its name. */
  function Assembled<T, R, K(==)>(cv: Converter<T, R, K>, entry: (string, SheetData)): (r: Result<(string, Table<K, R>)>)
    ensures r.Ok? ==> r.value.0 == entry.0
    ensures r.Err? ==> ReaderError(r.error)
  {
    var table :- AssembleTable(cv, entry.1);
    Ok((entry.0, table))
  }

  /** What reading a workbook can raise: an index past the end of a row or
      of the grid, a header name that is not text, an identifier that cannot
      be a dict key, or whatever the type parser or the converter raised. */
  predicate ReaderError(e: Exception)
  {
    e == IndexError || e == AttributeError || e == TypeError || e.Raised?
  }

  /** The whole reader. The first loop reads and filters every kept sheet
      into a dict keyed by sheet name; the second replaces each dict value by
      its table. The first raise anywhere aborts the whole workbook. */
  function ReadWorkbook<T, R, K(==)>(cv: Converter<T, R, K>, sheets: seq<Sheet>, cfg: Config)
    : Result<Dict<string, Table<K, R>>>
  {
    TwoPass(KeptSheets(sheets, cfg.ignoreSheetMark),
            s => Prepared(s, cfg.ignoreFieldMark),
            e => Assembled(cv, e))
  }

  /** The reader's two loops, for any per-sheet `prepare` step and any
      per-entry `finish` step. */
  function TwoPass<X, Y>(kept: seq<Sheet>, prepare: Sheet -> Result<(string, X)>,
                         finish: ((string, X)) -> Result<(string, Y)>): Result<Dict<string, Y>>
  {
    var prepared :- Collect(seq(|kept|, i requires 0 <= i < |kept| => prepare(kept[i])));
    var data := FromPairs(prepared);
    Collect(seq(|data|, i requires 0 <= i < |data| => finish(data[i])))
  }

  /** A step that names its result after the sheet it read. */
  ghost predicate NamesBySheet<X>(prepare: Sheet -> Result<(string, X)>)
  {
    forall s :: prepare(s).Ok? ==> prepare(s).value.0 == s.name
  }

  /** A step that keeps the key of the entry it converts. */
  ghost predicate KeepsKey<X(!new), Y>(finish: ((string, X)) -> Result<(string, Y)>)
  {
    forall e :: finish(e).Ok? ==> finish(e).value.0 == e.0
  }

  /** No other sheet of `kept` has the name of `s`. */
  ghost predicate OnlyOneNamed(kept: seq<Sheet>, s: Sheet)
  {
    forall t :: t in kept && t.name == s.name ==> t == s
  }

  /** The two loops yield a dict keyed by exactly the names of the sheets,
      each once; every sheet was prepared; a uniquely named sheet maps to
      its own finished value. */
  lemma TwoPassSpec<X(!new), Y>(kept: seq<Sheet>, prepare: Sheet -> Result<(string, X)>,
                                finish: ((string, X)) -> Result<(string, Y)>)
    requires NamesBySheet(prepare) && KeepsKey(finish)
    ensures var r := TwoPass(kept, prepare, finish);
      && (r.Ok? ==> DistinctKeys(r.value))
      && (r.Ok? ==> KeySet(r.value) == set s | s in kept :: s.name)
      && (r.Ok? ==> forall s :: s in kept ==> prepare(s).Ok?)
      && (r.Ok? ==> forall s :: s in kept && OnlyOneNamed(kept, s) ==>
            finish(prepare(s).value).Ok? && Get(r.value, s.name) == Some(finish(prepare(s).value).value.1))
  {
    var steps := seq(|kept|, i requires 0 <= i < |kept| => prepare(kept[i]));
    var p := Collect(steps);
    var r := TwoPass(kept, prepare, finish);
    if r.Ok? {
      var prepared := p.value;
      var data := FromPairs(prepared);
      var out := r.value;
      assert forall i :: 0 <= i < |kept| ==> prepare(kept[i]) == Ok(prepared[i]);
      assert forall i :: 0 <= i < |data| ==> finish(data[i]) == Ok(out[i]);
      FinishedFacts(kept, prepare, finish, prepared, out);
    }
  }

  /** The facts of `TwoPassSpec`, stated on the values of both loops. */
  lemma FinishedFacts<X(!new), Y>(kept: seq<Sheet>, prepare: Sheet -> Result<(string, X)>,
                                  finish: ((string, X)) -> Result<(string, Y)>,
                                  prepared: seq<(string, X)>, out: Dict<string, Y>)
    requires NamesBySheet(prepare) && KeepsKey(finish)
    requires |prepared| == |kept| && forall i :: 0 <= i < |kept| ==> prepare(kept[i]) == Ok(prepared[i])
    requires |out| == |FromPairs(prepared)|
    requires forall i :: 0 <= i < |out| ==> finish(FromPairs(prepared)[i]) == Ok(out[i])
    ensures DistinctKeys(out)
    ensures KeySet(out) == set s | s in kept :: s.name
    ensures forall s :: s in kept ==> prepare(s).Ok?
    ensures forall s :: s in kept && OnlyOneNamed(kept, s) ==>
      finish(prepare(s).value).Ok? && Get(out, s.name) == Some(finish(prepare(s).value).value.1)
  {
    var data := FromPairs(prepared);
    PreparedKeys(kept, prepare, prepared);
    forall s | s in kept ensures prepare(s).Ok? {
      var i :| 0 <= i < |kept| && kept[i] == s;
    }
    forall i | 0 <= i < |data| ensures out[i].0 == data[i].0 {
      assert finish(data[i]) == Ok(out[i]);
    }
    KeySetAligned(data, out);
    DistinctAligned(data, out);
    forall s | s in kept && OnlyOneNamed(kept, s)
      ensures finish(prepare(s).value).Ok? && Get(out, s.name) == Some(finish(prepare(s).value).value.1)
    {
      UniqueLookup(kept, prepare, finish, prepared, out, s);
    }
  }


  /** When every sheet prepares and every prepared entry finishes, the two
      loops do not raise. */
  lemma TwoPassTotal<X, Y>(kept: seq<Sheet>, prepare: Sheet -> Result<(string, X)>,
                           finish: ((string, X)) -> Result<(string, Y)>)
    requires forall s :: s in kept ==> prepare(s).Ok? && finish(prepare(s).value).Ok?
    ensures TwoPass(kept, prepare, finish).Ok?
  {
    var steps := seq(|kept|, i requires 0 <= i < |kept| => prepare(kept[i]));
    assert forall i :: 0 <= i < |kept| ==> steps[i].Ok? by {
      forall i | 0 <= i < |kept| ensures steps[i].Ok? {
        assert kept[i] in kept;
      }
    }
    var prepared := Collect(steps).value;
    var data := FromPairs(prepared);
    var tsteps := seq(|data|, i requires 0 <= i < |data| => finish(data[i]));
    assert forall i :: 0 <= i < |kept| ==> prepare(kept[i]) == Ok(prepared[i]);
    forall i | 0 <= i < |data| ensures tsteps[i].Ok? {
      EntryFinishes(kept, prepare, finish, prepared, data[i]);
    }
    assert TwoPass(kept, prepare, finish) == Collect(tsteps);
  }

  /** An entry prepared from some sheet finishes when every sheet does. */
  lemma EntryFinishes<X, Y>(kept: seq<Sheet>, prepare: Sheet -> Result<(string, X)>,
                            finish: ((string, X)) -> Result<(string, Y)>,
                            prepared: seq<(string, X)>, entry: (string, X))
    requires |prepared| == |kept| && forall i :: 0 <= i < |kept| ==> prepare(kept[i]) == Ok(prepared[i])
    requires forall s :: s in kept ==> prepare(s).Ok? && finish(prepare(s).value).Ok?
    requires entry in prepared
    ensures finish(entry).Ok?
  {
    var j :| 0 <= j < |prepared| && prepared[j] == entry;
    assert prepare(kept[j]) == Ok(prepared[j]);
    assert kept[j] in kept;
  }

  /** The names of the prepared entries are the names of the sheets. */
  lemma PreparedKeys<X>(kept: seq<Sheet>, prepare: Sheet -> Result<(string, X)>, prepared: seq<(string, X)>)
    requires NamesBySheet(prepare)
    requires |prepared| == |kept| && forall i :: 0 <= i < |kept| ==> prepare(kept[i]) == Ok(prepared[i])
    ensures KeySet(prepared) == set s | s in kept :: s.name
  {
    forall x | x in KeySet(prepared) ensures x in set s | s in kept :: s.name {
      var i :| 0 <= i < |prepared| && prepared[i].0 == x;
      assert prepare(kept[i]) == Ok(prepared[i]);
      assert kept[i] in kept;
    }
    forall x | x in set s | s in kept :: s.name ensures x in KeySet(prepared) {
      var s :| s in kept && s.name == x;
      var i :| 0 <= i < |kept| && kept[i] == s;
      assert prepare(kept[i]) == Ok(prepared[i]);
      assert prepared[i].0 == x;
    }
  }

  lemma DistinctAligned<K, V, W>(d: Dict<K, V>, e: Dict<K, W>)
    requires |d| == |e| && forall i :: 0 <= i < |d| ==> d[i].0 == e[i].0
    requires DistinctKeys(d)
    ensures DistinctKeys(e)
  {
  }

  /** The lookup of a uniquely named sheet in the result of the two loops. */
  lemma UniqueLookup<X(!new), Y>(kept: seq<Sheet>, prepare: Sheet -> Result<(string, X)>,
                           finish: ((string, X)) -> Result<(string, Y)>,
                           prepared: seq<(string, X)>, out: Dict<string, Y>, s: Sheet)
    requires NamesBySheet(prepare) && KeepsKey(finish)
    requires |prepared| == |kept| && forall i :: 0 <= i < |kept| ==> prepare(kept[i]) == Ok(prepared[i])
    requires |out| == |FromPairs(prepared)|
    requires forall i :: 0 <= i < |out| ==> finish(FromPairs(prepared)[i]) == Ok(out[i])
    requires s in kept && OnlyOneNamed(kept, s)
    ensures prepare(s).Ok? && finish(prepare(s).value).Ok?
    ensures Get(out, s.name) == Some(finish(prepare(s).value).value.1)
  {
    var data := FromPairs(prepared);
    var j :| 0 <= j < |kept| && kept[j] == s;
    var entry := prepared[j];
    assert prepare(s) == Ok(entry);
    forall m | 0 <= m < |prepared| && prepared[m].0 == s.name ensures prepared[m].1 == entry.1 {
      assert prepare(kept[m]) == Ok(prepared[m]);
      assert kept[m] in kept;
    }
    assert prepared[j].0 == s.name;
    FromPairsAgreeing(prepared, s.name, entry.1);
    forall m | 0 <= m < |data| ensures out[m].0 == data[m].0 {
      assert finish(data[m]) == Ok(out[m]);
    }
    GetAligned(data, out, s.name);
    var m :| 0 <= m < |data| && data[m].0 == s.name && Get(data, s.name) == Some(data[m].1) && Get(out, s.name) == Some(out[m].1);
    assert finish(data[m]) == Ok(out[m]);
    assert data[m] == entry;
  }

  /** The two loops raise only what one of their steps raised. */
  lemma TwoPassErrors<X, Y>(kept: seq<Sheet>, prepare: Sheet -> Result<(string, X)>,
                            finish: ((string, X)) -> Result<(string, Y)>)
    requires forall s :: prepare(s).Err? ==> ReaderError(prepare(s).error)
    requires forall e :: finish(e).Err? ==> ReaderError(finish(e).error)
    ensures TwoPass(kept, prepare, finish).Err? ==> ReaderError(TwoPass(kept, prepare, finish).error)
  {
    var steps := seq(|kept|, i requires 0 <= i < |kept| => prepare(kept[i]));
    var p := Collect(steps);
    if p.Err? {
      var i :| 0 <= i < |steps| && steps[i] == Err(p.error);
      assert prepare(kept[i]).Err?;
    } else {
      var data := FromPairs(p.value);
      var tsteps := seq(|data|, i requires 0 <= i < |data| => finish(data[i]));
      var q := Collect(tsteps);
      assert TwoPass(kept, prepare, finish) == q;
      if q.Err? {
        var i :| 0 <= i < |tsteps| && tsteps[i] == Err(q.error);
        assert finish(data[i]).Err?;
      }
    }
  }

  /** The reader never raises anything but a reader error; in particular it
      never raises `IllegalFile`. */
  lemma ReadWorkbookErrors<T, R, K>(cv: Converter<T, R, K>, sheets: seq<Sheet>, cfg: Config)
    ensures ReadWorkbook(cv, sheets, cfg).Err? ==> ReaderError(ReadWorkbook(cv, sheets, cfg).error)
  {
    var prepare: Sheet -> Result<(string, SheetData)> := s => Prepared(s, cfg.ignoreFieldMark);
    var finish: ((string, SheetData)) -> Result<(string, Table<K, R>)> := e => Assembled(cv, e);
    TwoPassErrors(KeptSheets(sheets, cfg.ignoreSheetMark), prepare, finish);
  }

  /** What the reader promises: the result is keyed by exactly the names of
      the kept sheets, each once, so no ignored sheet ever appears; every
      kept sheet was read and filtered without raising; a uniquely named kept
      sheet maps to the table of its own grid; and when every kept sheet
      reads and converts, the reader does not raise. */
  lemma ReadWorkbookSpec<T, R, K>(cv: Converter<T, R, K>, sheets: seq<Sheet>, cfg: Config)
    ensures var r := ReadWorkbook(cv, sheets, cfg);
      var kept := KeptSheets(sheets, cfg.ignoreSheetMark);
      && (r.Ok? ==> DistinctKeys(r.value))
      && (r.Ok? ==> KeySet(r.value) == set s | s in sheets && Kept(s, cfg.ignoreSheetMark) :: s.name)
      && (r.Ok? ==> forall i :: 0 <= i < |r.value| ==> !StartsWith(r.value[i].0, cfg.ignoreSheetMark))
      && (r.Ok? ==> forall s :: s in kept ==> Prepared(s, cfg.ignoreFieldMark).Ok?)
      && (r.Ok? ==> forall s :: s in kept && OnlyOneNamed(kept, s) ==>
            Assembled(cv, Prepared(s, cfg.ignoreFieldMark).value).Ok? &&
            Get(r.value, s.name) == Some(Assembled(cv, Prepared(s, cfg.ignoreFieldMark).value).value.1))
      && ((forall s :: s in kept ==>
            Prepared(s, cfg.ignoreFieldMark).Ok? && Assembled(cv, Prepared(s, cfg.ignoreFieldMark).value).Ok?)
          ==> r.Ok?)
  {
    var kept := KeptSheets(sheets, cfg.ignoreSheetMark);
    var prepare: Sheet -> Result<(string, SheetData)> := s => Prepared(s, cfg.ignoreFieldMark);
    var finish: ((string, SheetData)) -> Result<(string, Table<K, R>)> := e => Assembled(cv, e);
    TwoPassSpec(kept, prepare, finish);
    if forall s :: s in kept ==> prepare(s).Ok? && finish(prepare(s).value).Ok? {
      TwoPassTotal(kept, prepare, finish);
    }
    var r := ReadWorkbook(cv, sheets, cfg);
    assert r == TwoPass(kept, prepare, finish);
    assert (set s | s in kept :: s.name) == set s | s in sheets && Kept(s, cfg.ignoreSheetMark) :: s.name;
    if r.Ok? {
      forall i | 0 <= i < |r.value| ensures !StartsWith(r.value[i].0, cfg.ignoreSheetMark) {
        assert r.value[i].0 in KeySet(r.value);
      }
    }
  }

  /** Ignored sheets are never read: the reader gives the same answer on the
      workbook with its ignored sheets taken out, whatever their grids hold. */
  lemma IgnoredSheetsNeverRead<T, R, K>(cv: Converter<T, R, K>, sheets: seq<Sheet>, cfg: Config)
    ensures ReadWorkbook(cv, KeptSheets(sheets, cfg.ignoreSheetMark), cfg) == ReadWorkbook(cv, sheets, cfg)
  {
    KeptSheetsIdempotent(sheets, cfg.ignoreSheetMark);
  }
}
