/**
 Concrete sheets and names run through the model, showing the behaviour the
 general lemmas describe on small inputs.
 */
module Scenarios {
  import opened Outcomes
  import opened Text
  import opened Dicts
  import opened Cells
  import opened Columns
  import opened Tables
  import opened Export

  /** A one-row sheet with the given header names, one type and one
      description per column. */
  function HeaderOnly(names: seq<Cell>): (sd: SheetData)
    ensures Rectangular(sd) && sd.define.names == names && |sd.rows| == 1
  {
    var blank := seq(|names|, i => Empty);
    SheetData(Define(blank, blank, names), [blank])
  }

  /** Two marked columns side by side: the first is removed, the second
      slides into its place and is never looked at, so it survives. */
  lemma NeighbourOfRemovedSurvives()
    ensures var sd := HeaderOnly([Str("*a"), Str("*b"), Str("c")]);
      FilterColumns(sd, "*") == Ok(HeaderOnly([Str("*b"), Str("c")]))
  {
    var names := [Str("*a"), Str("*b"), Str("c")];
    var sd := HeaderOnly(names);
    assert StartsWith("*a", "*") && StartsWith("*b", "*");
    assert !StartsWith("c", "*") by { assert "c"[..1][0] == 'c'; }
    assert forall j :: 0 <= j < |names| ==> !Unreadable(names[j]);
    var flags := Plan(names, "*", false).value;
    assert flags[0] && !flags[1] && !flags[2];
    assert flags == [true, false, false];
    DropFirstOfThree(sd.define.names);
    DropFirstOfThree(sd.define.types);
    DropFirstOfThree(sd.define.descs);
    DropFirstOfThree(sd.rows[0]);
    var out := Remaining(sd, 0, flags);
    var expected := HeaderOnly([Str("*b"), Str("c")]);
    assert out.define == expected.define;
    assert out.rows == [sd.rows[0][1..]];
    assert out.rows == expected.rows;
  }

  lemma DropFirstOfThree<X>(xs: seq<X>)
    requires |xs| == 3
    ensures DropFrom(xs, 0, [true, false, false]) == xs[1..]
  {
    assert xs[0..] == xs && xs[..0] == [];
    assert Drop(xs[1..][1..][1..], []) == [];
    assert Drop(xs[1..][1..], [false]) == [xs[2]];
    assert Drop(xs[1..], [false, false]) == [xs[1], xs[2]];
  }

  /** A header that is not text raises only if the walk looks at it: right
      after a removed column it is skipped, anywhere else it raises. */
  lemma UnreadableNameRaisesOnlyWhenSeen()
    ensures FilterColumns(HeaderOnly([Str("*a"), Number(1.0)]), "*").Ok?
    ensures FilterColumns(HeaderOnly([Str("a"), Number(1.0)]), "*") == Err(AttributeError)
  {
    assert StartsWith("*a", "*");
    assert !StartsWith("a", "*") by { assert "a"[..1][0] == 'a'; }
    var seen := [Str("a"), Number(1.0)];
    assert seen[1..] == [Number(1.0)];
    assert Plan(seen[1..], "*", false) == Err(AttributeError);
    assert Plan(seen, "*", false) == Err(AttributeError);
    var skipped := [Str("*a"), Number(1.0)];
    assert skipped[1..] == [Number(1.0)];
    assert skipped[1..][1..] == [];
    assert Plan(skipped[1..][1..], "*", false) == Ok([]);
    assert Plan(skipped[1..], "*", true) == Ok([false] + []);
    assert Marked(skipped[0], "*");
    var f := Plan(skipped, "*", false);
    assert f.Ok?;
  }

  /** Blank header names are never removed, even with an empty mark. */
  lemma BlankNamesKept()
    ensures FilterColumns(HeaderOnly([Empty, Str("")]), "") == Ok(HeaderOnly([Empty, Str("")]))
  {
    var sd := HeaderOnly([Empty, Str("")]);
    BlankPlan();
    DropNoneOfTwo(sd.define.names);
    DropNoneOfTwo(sd.define.types);
    DropNoneOfTwo(sd.define.descs);
    DropNoneOfTwo(sd.rows[0]);
    assert Remaining(sd, 0, [false, false]) == sd;
  }

  lemma BlankPlan()
    ensures Plan([Empty, Str("")], "", false) == Ok([false, false])
  {
    var names := [Empty, Str("")];
    assert forall j :: 0 <= j < |names| ==> !Unreadable(names[j]) && !Marked(names[j], "");
    var flags := Plan(names, "", false).value;
    assert flags == [false, false];
  }

  lemma DropNoneOfTwo<X>(xs: seq<X>)
    requires |xs| == 2
    ensures DropFrom(xs, 0, [false, false]) == xs
  {
    assert xs[0..] == xs && xs[..0] == [];
    assert Drop(xs[1..][1..], []) == [];
    assert Drop(xs[1..], [false]) == [xs[1]];
  }

  /** The identity converter: every type parses, every cell converts to
      itself, and every identifier can be a dict key. */
  const Identity: Converter<(), Cell, Cell> :=
    Converter(c => Returned(()), (ctx, t, name, v) => Returned(v), v => v, k => true)

  /** A converter like `Identity` whose converted values cannot be dict keys. */
  const Unhashable: Converter<(), Cell, Cell> :=
    Converter(c => Returned(()), (ctx, t, name, v) => Returned(v), v => v, k => false)

  /** A row whose every cell converts still raises `TypeError` when it is
      stored under an identifier that cannot be a dict key, and so does its
      sheet. */
  lemma UnhashableIdRaises()
    ensures ConvertRow(Unhashable, [Str("int")], [Str("id")], [Number(1.0)]) == Err(TypeError)
    ensures AssembleTable(Unhashable, SheetData(Define([Str("int")], [Empty], [Str("id")]), [[Number(1.0)]])) == Err(TypeError)
  {
    var row := [Number(1.0)];
    assert RowId(Unhashable, [Str("int")], [Str("id")], row) == Ok(Number(1.0));
    assert ConvertCell(Unhashable, [Str("int")], [Str("id")], row, Number(1.0), 0).Ok?;
    var sd := SheetData(Define([Str("int")], [Empty], [Str("id")]), [row]);
    var rs := RowResults(Unhashable, sd);
    assert rs == [Err(TypeError)];
    assert rs[1..] == [];
  }

  /** Two rows with the same identifier: the table keeps one key, holding
      the record of the later row. */
  lemma LastRowWins()
    ensures var sd := SheetData(Define([Str("int"), Str("str")], [Empty, Empty], [Str("id"), Str("name")]),
                                [[Number(1.0), Str("x")], [Number(1.0), Str("y")]]);
      AssembleTable(Identity, sd) == Ok([(Number(1.0), [(Str("id"), Number(1.0)), (Str("name"), Str("y"))])])
  {
    var sd := SheetData(Define([Str("int"), Str("str")], [Empty, Empty], [Str("id"), Str("name")]),
                        [[Number(1.0), Str("x")], [Number(1.0), Str("y")]]);
    var d := sd.define;
    var first := [(Str("id"), Number(1.0)), (Str("name"), Str("x"))];
    var second := [(Str("id"), Number(1.0)), (Str("name"), Str("y"))];
    assert RowId(Identity, d.types, d.names, sd.rows[0]) == Ok(Number(1.0));
    assert RowId(Identity, d.types, d.names, sd.rows[1]) == Ok(Number(1.0));
    assert ConvertCell(Identity, d.types, d.names, sd.rows[0], Number(1.0), 0) == Ok(first[0]);
    assert ConvertCell(Identity, d.types, d.names, sd.rows[0], Number(1.0), 1) == Ok(first[1]);
    assert ConvertCell(Identity, d.types, d.names, sd.rows[1], Number(1.0), 0) == Ok(second[0]);
    assert ConvertCell(Identity, d.types, d.names, sd.rows[1], Number(1.0), 1) == Ok(second[1]);
    CollectTwo(CellResults(Identity, d.types, d.names, sd.rows[0], Number(1.0)), first);
    CollectTwo(CellResults(Identity, d.types, d.names, sd.rows[1], Number(1.0)), second);
    FromTwoPairs(Str("id"), Str("name"), Number(1.0), Str("x"));
    FromTwoPairs(Str("id"), Str("name"), Number(1.0), Str("y"));
    assert ConvertRow(Identity, d.types, d.names, sd.rows[0]) == Ok((Number(1.0), first));
    assert ConvertRow(Identity, d.types, d.names, sd.rows[1]) == Ok((Number(1.0), second));
    CollectTwo(RowResults(Identity, sd), [(Number(1.0), first), (Number(1.0), second)]);
    assert FromPairs([(Number(1.0), first), (Number(1.0), second)]) == [(Number(1.0), second)];
  }

  lemma FromTwoPairs<K, V>(k1: K, k2: K, v1: V, v2: V)
    requires k1 != k2
    ensures FromPairs([(k1, v1), (k2, v2)]) == [(k1, v1), (k2, v2)]
  {
    var ps := [(k1, v1), (k2, v2)];
    assert ps[..1] == [(k1, v1)] && ps[..1][..0] == [];
    assert FromPairs(ps[..1]) == [(k1, v1)];
  }

  lemma CollectTwo<X>(rs: seq<Result<X>>, xs: seq<X>)
    requires |rs| == 2 && |xs| == 2 && rs[0] == Ok(xs[0]) && rs[1] == Ok(xs[1])
    ensures Collect(rs) == Ok(xs)
  {
    var c := Collect(rs);
    assert c.Ok?;
    assert c.value == xs;
  }

  /** Output names of sheets with no, one and two dashes. */
  lemma SheetNames()
    ensures OutputBase("Item") == Ok("Item")
    ensures OutputBase("item-Item") == Ok("Item")
    ensures OutputBase("item-") == Ok("item")
    ensures OutputBase("a-b-c") == Err(ValueError)
  {
    assert '-' !in "Item" by { assert forall i :: 0 <= i < 4 ==> "Item"[i] != '-'; }
    RenamedName();
    TrailingDashName();
    TwoDashesName();
  }

  lemma RenamedName()
    ensures OutputBase("item-Item") == Ok("Item")
  {
    OutputBaseOfPair("item", "Item");
    DashJoined("item", "Item", "item-Item");
  }

  lemma TrailingDashName()
    ensures OutputBase("item-") == Ok("item")
  {
    OutputBaseOfPair("item", "");
    DashJoined("item", "", "item-");
  }

  /** `whole` is `org` and `rename` joined by a dash. */
  lemma DashJoined(org: string, rename: string, whole: string)
    requires |whole| == |org| + 1 + |rename| && whole[|org|] == '-'
    requires forall i :: 0 <= i < |org| ==> whole[i] == org[i]
    requires forall i :: 0 <= i < |rename| ==> whole[|org| + 1 + i] == rename[i]
    ensures org + "-" + rename == whole
  {
  }

  lemma TwoDashesName()
    ensures OutputBase("a-b-c") == Err(ValueError)
  {
    var s := "a-b-c";
    assert s[1..][1..][1..][1..][1..] == [];
    assert Count(s, '-') == 2;
  }

  /** A workbook in a sub-directory of the input root is written to the
      same sub-directory of the output root. */
  lemma MirroredPath()
    ensures OutputPath("/p/data", "/p/dist", "/p/data/sub/items.xlsx", "Item", "json") == "/p/dist/sub/items/Item.json"
  {
    var stem := SplitExt("/p/data/sub/items.xlsx").0;
    ItemsStem();
    var rel := RemoveAll(stem, "/p/data");
    ItemsRelative();
    var joined := PathJoin(rel, "Item");
    ItemsJoin();
    assert OutputPath("/p/data", "/p/dist", "/p/data/sub/items.xlsx", "Item", "json") == "/p/dist" + joined + "." + "json";
    ItemsOutput();
  }

  lemma ItemsStem()
    ensures SplitExt("/p/data/sub/items.xlsx").0 == "/p/data/sub/items"
  {
    var p := "/p/data/sub/items.xlsx";
    ItemsAtSlash();
    ItemsAtDot();
    LastOccurrence("/p/data/sub", "items.xlsx", '/');
    LastOccurrence("/p/data/sub/items", "xlsx", '.');
    assert p[12] == "/p/data/sub/items"[12] == 'i';
    assert p[..17] == "/p/data/sub/items";
  }

  /** `c` after `a` and nowhere in `b` is the last `c` of `a + [c] + b`. */
  lemma {:induction false} LastOccurrence(a: string, b: string, c: char)
    requires c !in b
    ensures RFind(a + [c] + b, c) == |a|
  {
    var s := a + [c] + b;
    if b == [] {
      assert s[|s| - 1] == c;
    } else {
      var b' := b[..|b| - 1];
      assert s[|s| - 1] == b[|b| - 1] != c;
      assert s[..|s| - 1] == a + [c] + b';
      LastOccurrence(a, b', c);
    }
  }

  lemma ItemsAtSlash()
    ensures "/p/data/sub" + ['/'] + "items.xlsx" == "/p/data/sub/items.xlsx"
    ensures '/' !in "items.xlsx"
  {
    var s := "/p/data/sub" + ['/'] + "items.xlsx";
    assert |s| == 22 && forall i :: 0 <= i < 22 ==> s[i] == "/p/data/sub/items.xlsx"[i];
    assert forall i :: 0 <= i < 10 ==> "items.xlsx"[i] != '/';
  }

  lemma ItemsAtDot()
    ensures "/p/data/sub/items" + ['.'] + "xlsx" == "/p/data/sub/items.xlsx"
    ensures '.' !in "xlsx"
  {
    var s := "/p/data/sub/items" + ['.'] + "xlsx";
    assert |s| == 22 && forall i :: 0 <= i < 22 ==> s[i] == "/p/data/sub/items.xlsx"[i];
    assert forall i :: 0 <= i < 4 ==> "xlsx"[i] != '.';
  }

  lemma ItemsRelative()
    ensures RemoveAll("/p/data/sub/items", "/p/data") == "/sub/items"
  {
    ItemsRootAbsent();
    ItemsConcat();
    RemoveAllLeading("/p/data", "/sub/items");
  }

  lemma ItemsConcat()
    ensures "/p/data" + "/sub/items" == "/p/data/sub/items"
  {
    var s := "/p/data" + "/sub/items";
    assert |s| == 17;
    assert forall i :: 0 <= i < 17 ==> s[i] == "/p/data/sub/items"[i];
  }

  lemma ItemsRootAbsent()
    ensures !Occurs("/sub/items", "/p/data")
  {
    var rel := "/sub/items";
    forall i: nat | i <= |rel| ensures !OccursAt(rel, "/p/data", i) {
      if i + 7 <= |rel| {
        assert rel[i..i + 7][1] == rel[i + 1] != 'p';
      }
    }
  }

  lemma ItemsJoin()
    ensures PathJoin("/sub/items", "Item") == "/sub/items/Item"
  {
    var s := "/sub/items" + "/" + "Item";
    assert PathJoin("/sub/items", "Item") == s;
    assert |s| == 15 && forall i :: 0 <= i < 15 ==> s[i] == "/sub/items/Item"[i];
  }

  lemma ItemsOutput()
    ensures "/p/dist" + "/sub/items/Item" + "." + "json" == "/p/dist/sub/items/Item.json"
  {
    var out := "/p/dist" + "/sub/items/Item" + "." + "json";
    assert |out| == 27;
    assert forall i :: 0 <= i < 27 ==> out[i] == "/p/dist/sub/items/Item.json"[i];
  }

  /** The root check is a plain prefix test, so the workbook `/p/data.xlsx`
      passes it for the input root `/p/data`. Its path relative to the root
      is empty, and its sheet `Item` is written to `/p/distItem.json`,
      outside the output directory `/p/dist`. */
  lemma SiblingOfRootAccepted()
    ensures StartsWith("/p/data.xlsx", "/p/data")
    ensures OutputPath("/p/data", "/p/dist", "/p/data.xlsx", "Item", "json") == "/p/distItem.json"
    ensures !StartsWith("/p/distItem.json", "/p/dist/")
  {
    SiblingPrefix();
    SiblingOutput();
    GluedOutside();
  }

  lemma SiblingPrefix()
    ensures StartsWith("/p/data.xlsx", "/p/data")
  {
    SiblingAtDot();
    assert "/p/data.xlsx"[..7] == "/p/data";
  }

  lemma GluedOutside()
    ensures !StartsWith("/p/distItem.json", "/p/dist/")
  {
    assert "/p/distItem.json"[..8][7] == 'I' != "/p/dist/"[7];
  }

  lemma SiblingOutput()
    ensures OutputPath("/p/data", "/p/dist", "/p/data.xlsx", "Item", "json") == "/p/distItem.json"
  {
    var stem := SplitExt("/p/data.xlsx").0;
    SiblingStem();
    var rel := RemoveAll(stem, "/p/data");
    SiblingRelative();
    assert PathJoin(rel, "Item") == "Item";
    assert OutputPath("/p/data", "/p/dist", "/p/data.xlsx", "Item", "json") == "/p/dist" + "Item" + "." + "json";
    GluedOutput();
  }

  lemma SiblingRelative()
    ensures RemoveAll("/p/data", "/p/data") == ""
  {
    assert !OccursAt("", "/p/data", 0);
    RemoveAllLeading("/p/data", "");
    assert "/p/data" + "" == "/p/data";
  }

  lemma SiblingStem()
    ensures SplitExt("/p/data.xlsx").0 == "/p/data"
  {
    var p := "/p/data.xlsx";
    SiblingAtSlash();
    SiblingAtDot();
    LastOccurrence("/p", "data.xlsx", '/');
    LastOccurrence("/p/data", "xlsx", '.');
    assert p[3] == "/p/data"[3] == 'd';
    assert p[..7] == "/p/data";
  }

  lemma SiblingAtSlash()
    ensures "/p" + ['/'] + "data.xlsx" == "/p/data.xlsx"
    ensures '/' !in "data.xlsx"
  {
    var s := "/p" + ['/'] + "data.xlsx";
    assert |s| == 12 && forall i :: 0 <= i < 12 ==> s[i] == "/p/data.xlsx"[i];
    assert forall i :: 0 <= i < 9 ==> "data.xlsx"[i] != '/';
  }

  lemma SiblingAtDot()
    ensures "/p/data" + ['.'] + "xlsx" == "/p/data.xlsx"
    ensures '.' !in "xlsx"
  {
    var s := "/p/data" + ['.'] + "xlsx";
    assert |s| == 12 && forall i :: 0 <= i < 12 ==> s[i] == "/p/data.xlsx"[i];
    assert forall i :: 0 <= i < 4 ==> "xlsx"[i] != '.';
  }

  lemma GluedOutput()
    ensures "/p/dist" + "Item" + "." + "json" == "/p/distItem.json"
  {
    var s := "/p/dist" + "Item" + "." + "json";
    assert |s| == 16 && forall i :: 0 <= i < 16 ==> s[i] == "/p/distItem.json"[i];
  }

  /** The workbook `/p/data/p/data.xlsx` lies inside the input directory
      `/p/data`, but its place below it names the root again, and `replace`
      removes both occurrences: its sheet `Item` is written to
      `/p/distItem.json`, outside the output directory `/p/dist`. The
      corrected export, which cuts only the leading root, writes it to
      `/p/dist/p/data/Item.json`. */
  lemma RootRecursEscapes()
    ensures InsideRoot("/p/data/p/data.xlsx", "/p/data")
    ensures OutputPath("/p/data", "/p/dist", "/p/data/p/data.xlsx", "Item", "json") == "/p/distItem.json"
    ensures !StartsWith("/p/distItem.json", "/p/dist/")
    ensures SheetPath("/p/dist", RootedRelative("/p/data/p/data.xlsx", "/p/data"), "Item", "json")
      == "/p/dist/p/data/Item.json"
  {
    RecursInside();
    RecursOutput();
    GluedOutside();
    RecursCorrected();
  }

  lemma RecursInside()
    ensures InsideRoot("/p/data/p/data.xlsx", "/p/data")
  {
    var p := "/p/data/p/data.xlsx";
    assert p[..7] == "/p/data";
    assert p[7] == '/';
  }

  lemma RecursOutput()
    ensures OutputPath("/p/data", "/p/dist", "/p/data/p/data.xlsx", "Item", "json") == "/p/distItem.json"
  {
    RecursStem();
    RecursRelative();
    assert PathJoin("", "Item") == "Item";
    assert OutputPath("/p/data", "/p/dist", "/p/data/p/data.xlsx", "Item", "json") == "/p/dist" + "Item" + "." + "json";
    GluedOutput();
  }

  lemma RecursCorrected()
    requires InsideRoot("/p/data/p/data.xlsx", "/p/data")
    ensures SheetPath("/p/dist", RootedRelative("/p/data/p/data.xlsx", "/p/data"), "Item", "json")
      == "/p/dist/p/data/Item.json"
  {
    RecursRooted();
    RecursJoin();
    RecursCorrectedOutput();
  }

  lemma RecursRooted()
    requires InsideRoot("/p/data/p/data.xlsx", "/p/data")
    ensures RootedRelative("/p/data/p/data.xlsx", "/p/data") == "/p/data"
  {
    var rel := RootedRelative("/p/data/p/data.xlsx", "/p/data");
    RecursStem();
    RecursDoubled();
    assert DirPrefix("/p/data") == "/p/data";
    assert "/p/data" + rel == "/p/data" + "/p/data";
    assert rel == ("/p/data" + rel)[7..];
  }

  lemma RecursDoubled()
    ensures "/p/data" + "/p/data" == "/p/data/p/data"
  {
    var s := "/p/data" + "/p/data";
    assert |s| == 14 && forall i :: 0 <= i < 14 ==> s[i] == "/p/data/p/data"[i];
  }

  lemma RecursStem()
    ensures SplitExt("/p/data/p/data.xlsx").0 == "/p/data/p/data"
  {
    var p := "/p/data/p/data.xlsx";
    RecursAtSlash();
    RecursAtDot();
    LastOccurrence("/p/data/p", "data.xlsx", '/');
    LastOccurrence("/p/data/p/data", "xlsx", '.');
    assert p[10] == "/p/data/p/data"[10] == 'd';
    assert p[..14] == "/p/data/p/data";
  }

  lemma RecursAtSlash()
    ensures "/p/data/p" + ['/'] + "data.xlsx" == "/p/data/p/data.xlsx"
    ensures '/' !in "data.xlsx"
  {
    var s := "/p/data/p" + ['/'] + "data.xlsx";
    assert |s| == 19 && forall i :: 0 <= i < 19 ==> s[i] == "/p/data/p/data.xlsx"[i];
    assert forall i :: 0 <= i < 9 ==> "data.xlsx"[i] != '/';
  }

  lemma RecursAtDot()
    ensures "/p/data/p/data" + ['.'] + "xlsx" == "/p/data/p/data.xlsx"
    ensures '.' !in "xlsx"
  {
    var s := "/p/data/p/data" + ['.'] + "xlsx";
    assert |s| == 19 && forall i :: 0 <= i < 19 ==> s[i] == "/p/data/p/data.xlsx"[i];
    assert forall i :: 0 <= i < 4 ==> "xlsx"[i] != '.';
  }

  lemma RecursRelative()
    ensures RemoveAll("/p/data/p/data", "/p/data") == ""
  {
    var s := "/p/data/p/data";
    assert s[..7] == "/p/data";
    assert s[7..] == "/p/data";
    SiblingRelative();
  }

  lemma RecursJoin()
    ensures PathJoin("/p/data", "Item") == "/p/data/Item"
  {
    var s := "/p/data" + "/" + "Item";
    assert PathJoin("/p/data", "Item") == s;
    assert |s| == 12 && forall i :: 0 <= i < 12 ==> s[i] == "/p/data/Item"[i];
  }

  lemma RecursCorrectedOutput()
    ensures "/p/dist" + "/p/data/Item" + "." + "json" == "/p/dist/p/data/Item.json"
  {
    var out := "/p/dist" + "/p/data/Item" + "." + "json";
    assert |out| == 24;
    assert forall i :: 0 <= i < 24 ==> out[i] == "/p/dist/p/data/Item.json"[i];
  }

  /** The directory check turns away the siblings `/p/data.xlsx` and
      `/p/database/x.xlsx` of the input root `/p/data`, and lets through a
      workbook in a sub-directory of it. */
  lemma SiblingOfRootRejected()
    ensures !InsideRoot("/p/data.xlsx", "/p/data")
    ensures !InsideRoot("/p/database/x.xlsx", "/p/data")
    ensures InsideRoot("/p/data/sub/items.xlsx", "/p/data")
  {
    assert "/p/data"[6] == 'a';
    assert "/p/data.xlsx"[7] == '.';
    assert "/p/database/x.xlsx"[7] == 'b';
    ItemsAtDot();
    ItemsConcat();
    var p := "/p/data/sub/items.xlsx";
    assert p[..17] == "/p/data/sub/items";
    assert p[..7] == "/p/data/sub/items"[..7] == "/p/data";
    assert p[7] == "/p/data/sub/items"[7] == "/sub/items"[0] == '/';
  }
}
