/**
 Table keying: every data row is converted identifier first, then field by
 field, and stored in the table under its converted identifier.

 The type parser and the value converter are not part of this model: they
 are the function-valued fields of `Converter`, and may return or raise.
 Reading `.value` off a conversion result is an attribute read and always
 returns; whether that value can be a dict key is the converter's business
 too, and a key that cannot raises `TypeError` when the row is stored.
 */
module Tables {
  import opened Outcomes
  import opened Dicts
  import opened Cells
  import opened Columns

  /** The row identifier a conversion is given for its diagnostics: the raw
      identifier cell while the identifier itself is being converted, the
      converted identifier for every field of the row. */
  datatype Context<K> = RawId(cell: Cell) | KeyId(key: K)

  /** The collaborators of the sheet reader. */
  datatype Converter<!T, !R, !K> = Converter(
    parseType: Cell -> Attempt<T>,                       // type descriptor from a type header cell
    convert: (Context<K>, T, Cell, Cell) -> Attempt<R>,  // (row id, type, field name, raw value) to a result
    valueOf: R -> K,                                     // the converted value carried by a result
    hashable: K -> bool                                  // whether a converted value can be a dict key
  )

  /** What converting a sheet can raise: an index past the end of a header
      row, an identifier that cannot be a dict key, or whatever the type
      parser or the converter raised. */
  predicate ConversionError(e: Exception)
  {
    e == IndexError || e == TypeError || e.Raised?
  }

  /** A converted row: field name to conversion result. */
  type Record<R> = Dict<Cell, R>

  /** A converted sheet: identifier to record. */
  type Table<K, R> = Dict<K, Record<R>>

  /** The conversion of field `i` of `row` in the row whose identifier is `id`. */
  function ConvertCell<T, R, K>(cv: Converter<T, R, K>, types: seq<Cell>, names: seq<Cell>, row: seq<Cell>, id: K, i: nat)
    : (r: Result<(Cell, R)>)
    requires i < |row|
    ensures r.Ok? <==>
      && i < |names| && i < |types|
      && cv.parseType(types[i]).Returned?
      && cv.convert(KeyId(id), cv.parseType(types[i]).value, names[i], row[i]).Returned?
    ensures r.Ok? ==> r.value == (names[i], cv.convert(KeyId(id), cv.parseType(types[i]).value, names[i], row[i]).value)
    ensures r.Err? ==> ConversionError(r.error)
  {
    if i >= |names| || i >= |types| then Err(IndexError)
    else
      var t :- Lift(cv.parseType(types[i]));
      var v :- Lift(cv.convert(KeyId(id), t, names[i], row[i]));
      Ok((names[i], v))
  }

  /** The conversions of the cells of `row`, in column order. */
  function CellResults<T, R, K>(cv: Converter<T, R, K>, types: seq<Cell>, names: seq<Cell>, row: seq<Cell>, id: K)
    : seq<Result<(Cell, R)>>
  {
    seq(|row|, i requires 0 <= i < |row| => ConvertCell(cv, types, names, row, id, i))
  }

  /** The identifier pass of one row: the first column's type is parsed and
      its cell converted, with the raw cell itself as the context. */
  function RowId<T, R, K>(cv: Converter<T, R, K>, types: seq<Cell>, names: seq<Cell>, row: seq<Cell>): (r: Result<K>)
    ensures r.Ok? <==>
      && |types| > 0 && |names| > 0 && |row| > 0
      && cv.parseType(types[0]).Returned?
      && cv.convert(RawId(row[0]), cv.parseType(types[0]).value, names[0], row[0]).Returned?
    ensures r.Ok? ==> r.value == cv.valueOf(cv.convert(RawId(row[0]), cv.parseType(types[0]).value, names[0], row[0]).value)
    ensures r.Err? ==> ConversionError(r.error)
  {
    if |types| == 0 then Err(IndexError)
    else
      var idType :- Lift(cv.parseType(types[0]));
      if |names| == 0 || |row| == 0 then Err(IndexError)
      else
        var id :- Lift(cv.convert(RawId(row[0]), idType, names[0], row[0]));
        Ok(cv.valueOf(id))
  }

  /** One data row, converted and ready to store: its identifier and its
      record. The record has a key for the name of every cell of the row, the
      identifier column's included; each key holds the conversion of the LAST
      column with that name, made with the row's identifier as context. Once
      every cell has converted, storing the record under an identifier that
      cannot be a dict key raises `TypeError`. */
  function ConvertRow<T, R, K(==)>(cv: Converter<T, R, K>, types: seq<Cell>, names: seq<Cell>, row: seq<Cell>)
    : (r: Result<(K, Record<R>)>)
    ensures r.Ok? <==> (RowId(cv, types, names, row).Ok? &&
      (forall j :: 0 <= j < |row| ==> ConvertCell(cv, types, names, row, RowId(cv, types, names, row).value, j).Ok?) &&
      cv.hashable(RowId(cv, types, names, row).value))
    ensures r == Err(TypeError) <==> (RowId(cv, types, names, row).Ok? &&
      (forall j :: 0 <= j < |row| ==> ConvertCell(cv, types, names, row, RowId(cv, types, names, row).value, j).Ok?) &&
      !cv.hashable(RowId(cv, types, names, row).value))
    ensures r.Ok? ==> RowId(cv, types, names, row) == Ok(r.value.0)
    ensures r.Err? ==> ConversionError(r.error)
    ensures r.Ok? ==> 0 < |row| <= |names| && |row| <= |types|
    ensures r.Ok? ==> KeySet(r.value.1) == set i | 0 <= i < |row| :: names[i]
    ensures r.Ok? ==> names[0] in KeySet(r.value.1)
    ensures r.Ok? ==> forall i :: 0 <= i < |row| && (forall j :: i < j < |row| ==> names[j] != names[i]) ==>
      Get(r.value.1, names[i]) == Some(ConvertCell(cv, types, names, row, r.value.0, i).value.1)
  {
    var id :- RowId(cv, types, names, row);
    var cells := CellResults(cv, types, names, row, id);
    var fields :- Collect(cells);
    assert forall j :: 0 <= j < |row| ==> cells[j] == ConvertCell(cv, types, names, row, id, j);
    FieldKeys(cv, types, names, row, id, fields);
    FieldsLast(cv, types, names, row, id, fields);
    if !cv.hashable(id) then Err(TypeError)
    else Ok((id, FromPairs(fields)))
  }

  lemma FieldKeys<T, R, K>(cv: Converter<T, R, K>, types: seq<Cell>, names: seq<Cell>, row: seq<Cell>, id: K,
                           fields: seq<(Cell, R)>)
    requires |fields| == |row|
    requires forall i :: 0 <= i < |row| ==> ConvertCell(cv, types, names, row, id, i) == Ok(fields[i])
    ensures |row| <= |names| && |row| <= |types|
    ensures KeySet(fields) == set i | 0 <= i < |row| :: names[i]
  {
    if |row| > 0 {
      assert ConvertCell(cv, types, names, row, id, |row| - 1).Ok?;
    }
    forall x | x in KeySet(fields) ensures x in set i | 0 <= i < |row| :: names[i] {
      var i :| 0 <= i < |fields| && fields[i].0 == x;
      assert ConvertCell(cv, types, names, row, id, i) == Ok(fields[i]);
    }
    forall x | x in set i | 0 <= i < |row| :: names[i] ensures x in KeySet(fields) {
      var i :| 0 <= i < |row| && names[i] == x;
      assert ConvertCell(cv, types, names, row, id, i) == Ok(fields[i]);
      assert fields[i].0 == x;
    }
  }

  lemma FieldsLast<T, R, K>(cv: Converter<T, R, K>, types: seq<Cell>, names: seq<Cell>, row: seq<Cell>, id: K,
                            fields: seq<(Cell, R)>)
    requires |fields| == |row| && |row| <= |names|
    requires forall i :: 0 <= i < |row| ==> ConvertCell(cv, types, names, row, id, i) == Ok(fields[i])
    ensures forall i :: 0 <= i < |row| && (forall j :: i < j < |row| ==> names[j] != names[i]) ==>
      Get(FromPairs(fields), names[i]) == Some(ConvertCell(cv, types, names, row, id, i).value.1)
  {
    forall i | 0 <= i < |row| && (forall j :: i < j < |row| ==> names[j] != names[i])
      ensures Get(FromPairs(fields), names[i]) == Some(ConvertCell(cv, types, names, row, id, i).value.1)
    {
      assert ConvertCell(cv, types, names, row, id, i) == Ok(fields[i]);
      forall j | i < j < |fields| ensures fields[j].0 != fields[i].0 {
        assert ConvertCell(cv, types, names, row, id, j) == Ok(fields[j]);
      }
      assert LastOfKey(fields, i);
    }
  }

  /** The conversions of the data rows of `sd`, in order. */
  function RowResults<T, R, K(==)>(cv: Converter<T, R, K>, sd: SheetData): seq<Result<(K, Record<R>)>>
  {
    seq(|sd.rows|, i requires 0 <= i < |sd.rows| => ConvertRow(cv, sd.define.types, sd.define.names, sd.rows[i]))
  }

  /** The converted identifier of data row `i`, when the row converts. */
  function IdOf<T, R, K(==)>(cv: Converter<T, R, K>, sd: SheetData, i: nat): K
    requires i < |sd.rows| && ConvertRow(cv, sd.define.types, sd.define.names, sd.rows[i]).Ok?
  {
    ConvertRow(cv, sd.define.types, sd.define.names, sd.rows[i]).value.0
  }

  /** The table of one sheet. Its keys are the converted identifiers of the
      data rows, each once; a key shared by several rows holds the record of
      the LAST of them. Any row that raises makes the whole sheet raise. */
  function AssembleTable<T, R, K(==)>(cv: Converter<T, R, K>, sd: SheetData): (r: Result<Table<K, R>>)
    ensures r.Ok? <==> forall i :: 0 <= i < |sd.rows| ==> ConvertRow(cv, sd.define.types, sd.define.names, sd.rows[i]).Ok?
    ensures r.Ok? ==> DistinctKeys(r.value) && |r.value| <= |sd.rows|
    ensures r.Err? ==> ConversionError(r.error)
    ensures r.Ok? ==> (KeySet(r.value) ==
      set i | 0 <= i < |sd.rows| && ConvertRow(cv, sd.define.types, sd.define.names, sd.rows[i]).Ok? :: IdOf(cv, sd, i))
    ensures r.Ok? ==> forall i :: 0 <= i < |sd.rows| && LastRowOfId(cv, sd, i) ==>
      Get(r.value, IdOf(cv, sd, i)) == Some(ConvertRow(cv, sd.define.types, sd.define.names, sd.rows[i]).value.1)
  {
    var results := RowResults(cv, sd);
    var pairs :- Collect(results);
    assert forall j :: 0 <= j < |sd.rows| ==> results[j] == ConvertRow(cv, sd.define.types, sd.define.names, sd.rows[j]);
    TableKeys(cv, sd, pairs);
    TableLast(cv, sd, pairs);
    DistinctKeysBound(FromPairs(pairs), pairs);
    Ok(FromPairs(pairs))
  }

  /** Row `i` converts, and no later row converts to the same identifier. */
  ghost predicate LastRowOfId<T, R, K>(cv: Converter<T, R, K>, sd: SheetData, i: nat)
    requires i < |sd.rows|
  {
    && ConvertRow(cv, sd.define.types, sd.define.names, sd.rows[i]).Ok?
    && forall j :: i < j < |sd.rows| && ConvertRow(cv, sd.define.types, sd.define.names, sd.rows[j]).Ok? ==>
         IdOf(cv, sd, j) != IdOf(cv, sd, i)
  }

  lemma TableKeys<T, R, K>(cv: Converter<T, R, K>, sd: SheetData, pairs: seq<(K, Record<R>)>)
    requires |pairs| == |sd.rows|
    requires forall i :: 0 <= i < |sd.rows| ==> ConvertRow(cv, sd.define.types, sd.define.names, sd.rows[i]) == Ok(pairs[i])
    ensures KeySet(pairs) ==
      set i | 0 <= i < |sd.rows| && ConvertRow(cv, sd.define.types, sd.define.names, sd.rows[i]).Ok? :: IdOf(cv, sd, i)
  {
    var ids := set i | 0 <= i < |sd.rows| && ConvertRow(cv, sd.define.types, sd.define.names, sd.rows[i]).Ok? :: IdOf(cv, sd, i);
    forall x | x in KeySet(pairs) ensures x in ids {
      var i :| 0 <= i < |pairs| && pairs[i].0 == x;
      assert IdOf(cv, sd, i) == x;
    }
    forall x | x in ids ensures x in KeySet(pairs) {
      var i :| 0 <= i < |sd.rows| && ConvertRow(cv, sd.define.types, sd.define.names, sd.rows[i]).Ok? && IdOf(cv, sd, i) == x;
      assert pairs[i].0 == x;
    }
  }

  lemma TableLast<T, R, K>(cv: Converter<T, R, K>, sd: SheetData, pairs: seq<(K, Record<R>)>)
    requires |pairs| == |sd.rows|
    requires forall i :: 0 <= i < |sd.rows| ==> ConvertRow(cv, sd.define.types, sd.define.names, sd.rows[i]) == Ok(pairs[i])
    ensures forall i :: 0 <= i < |sd.rows| && LastRowOfId(cv, sd, i) ==>
      Get(FromPairs(pairs), IdOf(cv, sd, i)) == Some(ConvertRow(cv, sd.define.types, sd.define.names, sd.rows[i]).value.1)
  {
    forall i | 0 <= i < |sd.rows| && LastRowOfId(cv, sd, i)
      ensures Get(FromPairs(pairs), IdOf(cv, sd, i)) == Some(ConvertRow(cv, sd.define.types, sd.define.names, sd.rows[i]).value.1)
    {
      forall j | i < j < |pairs| ensures pairs[j].0 != pairs[i].0 {
        assert pairs[j].0 == IdOf(cv, sd, j);
      }
      assert LastOfKey(pairs, i);
    }
  }
}
