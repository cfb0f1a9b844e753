/**
 The exporter: a workbook under the input root is read, and every table in
 it is rendered by the generator into a file whose path mirrors the
 workbook's place under the input root, below the output root. A sheet whose
 naming or rendering fails is reported and skipped; a workbook outside the
 input root, or one that cannot be read, stops the run.

 Paths are taken as already absolute; creating directories and writing the
 files is not part of this model, so a sheet's outcome is the path and the
 text that would be written.
 */
module Export {
  import opened Outcomes
  import opened Text
  import opened Dicts
  import opened Cells
  import opened Tables
  import opened Workbook

  /** The code generator: renders one table as text, for files with the
      given extension. */
  datatype Generator<!K, !R> = Generator(render: Table<K, R> -> Attempt<string>, extension: string)

  /** What became of one sheet: a file to write, or a failure that was
      logged and skipped. */
  datatype SheetOutcome =
    | Written(sheet: string, path: string, text: string)
    | Failed(sheet: string, error: Exception)

  /** The base name of a sheet's output file. A sheet named `org-rename` is
      written as `rename`, or as `org` when `rename` is empty; a name with no
      dash is used as it is; a name with two or more dashes cannot be
      unpacked into two parts and raises `ValueError`. */
  function OutputBase(name: string): (r: Result<string>)
    ensures r.Ok? <==> Count(name, '-') <= 1
    ensures r.Err? ==> r.error == ValueError
    ensures r.Ok? ==> '-' !in r.value
    ensures '-' !in name ==> r == Ok(name)
  {
    CountZeroIffAbsent(name, '-');
    if '-' !in name then Ok(name)
    else
      var parts := Split(name, '-');
      if |parts| != 2 then Err(ValueError)
      else Ok(if parts[1] != [] then parts[1] else parts[0])
  }

  /** The two halves of a dashed name come back out of it: the part after
      the dash, or the part before when nothing follows the dash. */
  lemma OutputBaseOfPair(org: string, rename: string)
    requires '-' !in org && '-' !in rename
    ensures OutputBase(org + "-" + rename) == Ok(if rename != [] then rename else org)
  {
    var name := org + "-" + rename;
    SplitJoin([org, rename], '-');
    assert JoinWith([org, rename], '-') == name;
    assert name[|org|] == '-';
  }

  /** The path a sheet's text is written to: the workbook path without its
      extension and with the input root removed, joined with the base name,
      appended to the output root, with the generator's extension. */
  function OutputPath(inRoot: string, outRoot: string, wbPath: string, base: string, ext: string): string
  {
    SheetPath(outRoot, Relative(wbPath, inRoot), base, ext)
  }

  /** The workbook's path relative to the input root, as the engine computes
      it: the path without its extension, with every occurrence of the root
      removed. */
  function Relative(wbPath: string, inRoot: string): string
  {
    RemoveAll(SplitExt(wbPath).0, inRoot)
  }

  /** The file for the sheet `base` of a workbook at `rel` below the roots. */
  function SheetPath(outRoot: string, rel: string, base: string, ext: string): string
  {
    outRoot + PathJoin(rel, base) + "." + ext
  }

  /** The output keeps the input's directory layout: a workbook at
      `inRoot + rel + ext0` has its sheets written under `outRoot + rel`, each
      to a file named after the sheet with the generator's extension. */
  lemma OutputMirrorsInput(inRoot: string, outRoot: string, wbPath: string, rel: string, base: string, ext: string)
    requires inRoot != [] && SplitExt(wbPath).0 == inRoot + rel
    requires !Occurs(rel, inRoot) && rel != []
    requires '/' !in base && '/' !in ext
    ensures StartsWith(OutputPath(inRoot, outRoot, wbPath, base, ext), outRoot + rel)
    ensures BaseName(OutputPath(inRoot, outRoot, wbPath, base, ext)) == base + "." + ext
  {
    RemoveAllLeading(inRoot, rel);
    var joined := PathJoin(rel, base);
    assert OutputPath(inRoot, outRoot, wbPath, base, ext) == outRoot + joined + "." + ext;
    PrefixKept(outRoot, rel, joined, "." + ext);
    PathJoinTail(rel, base);
    FileNameWithExtension(outRoot, joined, base, ext);
  }

  /** A prefix of the middle part stays a prefix once the ends are glued on. */
  lemma PrefixKept(front: string, rel: string, mid: string, back: string)
    requires StartsWith(mid, rel)
    ensures StartsWith(front + mid + back, front + rel)
  {
    var out := front + mid + back;
    assert out[..|front| + |rel|] == front + rel by {
      forall k | 0 <= k < |front| + |rel| ensures out[k] == (front + rel)[k] {
        if k >= |front| {
          assert out[k] == mid[k - |front|] == rel[k - |front|];
        }
      }
    }
  }

  /** Appending an extension to a path that ends in `/base` gives a file
      named `base.ext`. */
  lemma FileNameWithExtension(prefix: string, joined: string, base: string, ext: string)
    requires '/' !in base && '/' !in ext
    requires |joined| > |base| && joined[|joined| - |base|..] == base && joined[|joined| - |base| - 1] == '/'
    ensures BaseName(prefix + joined + "." + ext) == base + "." + ext
  {
    var out := prefix + joined + "." + ext;
    var name := base + "." + ext;
    assert '/' !in name by {
      forall j | 0 <= j < |name| ensures name[j] != '/' {
        if j > |base| {
          assert name[j] == ext[j - |base| - 1];
        }
      }
    }
    var head := prefix + joined[..|joined| - |base|];
    assert joined == joined[..|joined| - |base|] + base;
    assert out == head + name;
    assert out[|out| - |name|..] == name;
    assert out[|out| - |name| - 1] == '/';
    BaseNameAfterSlash(out, name);
  }

  /** One sheet of the workbook: its output name, then its rendering. Either
      may raise; the exception is caught, logged and the sheet skipped. */
  function ExportSheet<K, R>(gen: Generator<K, R>, cfg: Config, rel: string, entry: (string, Table<K, R>))
    : (r: SheetOutcome)
    ensures r.sheet == entry.0
    ensures r.Written? <==> OutputBase(entry.0).Ok? && gen.render(entry.1).Returned?
    ensures r.Written? ==>
      r.path == SheetPath(cfg.output, rel, OutputBase(entry.0).value, gen.extension) &&
      r.text == gen.render(entry.1).value
    ensures OutputBase(entry.0).Err? ==> r == Failed(entry.0, ValueError)
  {
    match OutputBase(entry.0)
    case Err(e) => Failed(entry.0, e)
    case Ok(base) =>
      match gen.render(entry.1)
      case Threw(reason) => Failed(entry.0, Raised(reason))
      case Returned(text) => Written(entry.0, SheetPath(cfg.output, rel, base, gen.extension), text)
  }

  /** One workbook: the root check, the reader, then every table in sheet
      order. */
  function Gen<T, R, K(==)>(cv: Converter<T, R, K>, gen: Generator<K, R>, cfg: Config, wbPath: string, sheets: seq<Sheet>)
    : (r: Result<seq<SheetOutcome>>)
    ensures !StartsWith(wbPath, cfg.input) ==> r == Err(IllegalFile(wbPath, cfg.input))
    ensures r.Err? && r.error.IllegalFile? <==> !StartsWith(wbPath, cfg.input)
    ensures StartsWith(wbPath, cfg.input) ==>
      (r.Ok? <==> ReadWorkbook(cv, sheets, cfg).Ok?) &&
      (r.Err? ==> r.error == ReadWorkbook(cv, sheets, cfg).error)
    ensures r.Ok? ==>
      |r.value| == |ReadWorkbook(cv, sheets, cfg).value| &&
      forall i :: 0 <= i < |r.value| ==>
        r.value[i] == ExportSheet(gen, cfg, Relative(wbPath, cfg.input), ReadWorkbook(cv, sheets, cfg).value[i])
  {
    if !StartsWith(wbPath, cfg.input) then Err(IllegalFile(wbPath, cfg.input))
    else ExportTables(cv, gen, cfg, Relative(wbPath, cfg.input), sheets)
  }

  /** The reader, then every table in sheet order, each written below `rel`. */
  function ExportTables<T, R, K(==)>(cv: Converter<T, R, K>, gen: Generator<K, R>, cfg: Config, rel: string, sheets: seq<Sheet>)
    : (r: Result<seq<SheetOutcome>>)
    ensures r.Ok? <==> ReadWorkbook(cv, sheets, cfg).Ok?
    ensures r.Err? ==> r.error == ReadWorkbook(cv, sheets, cfg).error && !r.error.IllegalFile?
    ensures r.Ok? ==>
      |r.value| == |ReadWorkbook(cv, sheets, cfg).value| &&
      forall i :: 0 <= i < |r.value| ==>
        r.value[i] == ExportSheet(gen, cfg, rel, ReadWorkbook(cv, sheets, cfg).value[i])
  {
    ReadWorkbookErrors(cv, sheets, cfg);
    var data :- ReadWorkbook(cv, sheets, cfg);
    Ok(seq(|data|, i requires 0 <= i < |data| => ExportSheet(gen, cfg, rel, data[i])))
  }

  /** `path` lies inside the directory `root`: it starts with the root,
      followed by a '/' unless the root already ends with one. Unlike the
      plain prefix check of `Gen`, this turns away siblings of the root such
      as `/p/data.xlsx` or `/p/database/x.xlsx` for the root `/p/data`. */
  predicate InsideRoot(path: string, root: string)
  {
    && StartsWith(path, root)
    && ((root != [] && root[|root| - 1] == '/') || (|path| > |root| && path[|root|] == '/'))
  }

  /** The input directory as a path prefix: the root without a trailing '/'. */
  function DirPrefix(root: string): string
  {
    if root != [] && root[|root| - 1] == '/' then root[..|root| - 1] else root
  }

  /** The workbook's place below the input directory: the path without its
      extension, with only the leading input directory cut off. It keeps the
      '/' that follows the directory. */
  function RootedRelative(wbPath: string, inRoot: string): (r: string)
    requires InsideRoot(wbPath, inRoot)
    ensures SplitExt(wbPath).0 == DirPrefix(inRoot) + r
    ensures r != [] && r[0] == '/'
  {
    StemAfterRoot(wbPath, inRoot);
    var stem := SplitExt(wbPath).0;
    var k := |DirPrefix(inRoot)|;
    assert stem == stem[..k] + stem[k..];
    stem[k..]
  }

  /** The stem of a path inside the input directory starts with the
      directory and the '/' after it. */
  lemma StemAfterRoot(wbPath: string, inRoot: string)
    requires InsideRoot(wbPath, inRoot)
    ensures var k := |DirPrefix(inRoot)|;
      k < |SplitExt(wbPath).0| && SplitExt(wbPath).0[..k] == DirPrefix(inRoot) && SplitExt(wbPath).0[k] == '/'
  {
    var k := |DirPrefix(inRoot)|;
    assert wbPath[..k] == DirPrefix(inRoot) && wbPath[k] == '/';
    StemKeepsSlash(wbPath, k);
    var stem := SplitExt(wbPath).0;
    assert stem[..k] == stem[..k + 1][..k] == wbPath[..k + 1][..k];
    assert stem[k] == stem[..k + 1][k];
  }

  /** The extension never holds a '/', so the stem keeps every '/' of the
      path together with everything before it. */
  lemma StemKeepsSlash(p: string, k: nat)
    requires k < |p| && p[k] == '/'
    ensures k < |SplitExt(p).0| && SplitExt(p).0[..k + 1] == p[..k + 1]
  {
    var stem := SplitExt(p).0;
    var ext := SplitExt(p).1;
    assert forall j :: |stem| <= j < |p| ==> p[j] == ext[j - |stem|];
  }

  /** `Gen` corrected: the root check is a directory check, and only the
      leading input directory is cut from the workbook's path. A workbook
      outside the input directory raises `IllegalFile`; any other is read
      as `Gen` reads it and its sheets are written below its place under the
      input directory. */
  function GenInsideRoot<T, R, K(==)>(cv: Converter<T, R, K>, gen: Generator<K, R>, cfg: Config, wbPath: string,
                                      sheets: seq<Sheet>)
    : (r: Result<seq<SheetOutcome>>)
    ensures r.Err? && r.error.IllegalFile? <==> !InsideRoot(wbPath, cfg.input)
    ensures InsideRoot(wbPath, cfg.input) ==>
      (r.Ok? <==> ReadWorkbook(cv, sheets, cfg).Ok?) &&
      (r.Err? ==> r.error == ReadWorkbook(cv, sheets, cfg).error)
    ensures r.Ok? ==>
      InsideRoot(wbPath, cfg.input) &&
      |r.value| == |ReadWorkbook(cv, sheets, cfg).value| &&
      forall i :: 0 <= i < |r.value| ==>
        r.value[i] == ExportSheet(gen, cfg, RootedRelative(wbPath, cfg.input), ReadWorkbook(cv, sheets, cfg).value[i])
  {
    if !InsideRoot(wbPath, cfg.input) then Err(IllegalFile(wbPath, cfg.input))
    else ExportTables(cv, gen, cfg, RootedRelative(wbPath, cfg.input), sheets)
  }

  /** A sheet file of a workbook inside the input directory lies inside the
      output directory, below the workbook's place, and is named after the
      sheet. */
  lemma RootedPathInside(inRoot: string, outRoot: string, wbPath: string, base: string, ext: string)
    requires InsideRoot(wbPath, inRoot)
    ensures var out := SheetPath(outRoot, RootedRelative(wbPath, inRoot), base, ext);
      && StartsWith(out, outRoot + "/")
      && ((base == [] || base[0] != '/') ==> StartsWith(out, outRoot + RootedRelative(wbPath, inRoot)))
      && ('/' !in base && '/' !in ext ==> BaseName(out) == base + "." + ext)
  {
    SheetPathBelow(outRoot, RootedRelative(wbPath, inRoot), base, ext);
  }

  /** The sheet file of a workbook whose place starts with '/' lies below
      the output root's '/'. */
  lemma SheetPathBelow(outRoot: string, rel: string, base: string, ext: string)
    requires rel != [] && rel[0] == '/'
    ensures var out := SheetPath(outRoot, rel, base, ext);
      && StartsWith(out, outRoot + "/")
      && ((base == [] || base[0] != '/') ==> StartsWith(out, outRoot + rel))
      && ('/' !in base && '/' !in ext ==> BaseName(out) == base + "." + ext)
  {
    var joined := PathJoin(rel, base);
    JoinedStartsWithSlash(rel, base);
    PrefixKept(outRoot, "/", joined, "." + ext);
    if base == [] || base[0] != '/' {
      PrefixKept(outRoot, rel, joined, "." + ext);
    }
    if '/' !in base && '/' !in ext {
      PathJoinTail(rel, base);
      FileNameWithExtension(outRoot, joined, base, ext);
    }
  }

  lemma JoinedStartsWithSlash(rel: string, base: string)
    requires rel != [] && rel[0] == '/'
    ensures StartsWith(PathJoin(rel, base), "/")
  {
    var joined := PathJoin(rel, base);
    if base != [] && base[0] == '/' {
      assert joined == base;
    } else {
      assert joined[..|rel|] == rel;
    }
    assert joined[..1] == [joined[0]];
  }

  /** With the corrected export, every sheet that is written is written
      inside the output directory. */
  lemma GenInsideRootWritesInside<T, R, K>(cv: Converter<T, R, K>, gen: Generator<K, R>, cfg: Config, wbPath: string,
                                           sheets: seq<Sheet>)
    ensures var r := GenInsideRoot(cv, gen, cfg, wbPath, sheets);
      r.Ok? ==> forall i :: 0 <= i < |r.value| && r.value[i].Written? ==> StartsWith(r.value[i].path, cfg.output + "/")
  {
    var r := GenInsideRoot(cv, gen, cfg, wbPath, sheets);
    if r.Ok? {
      forall i | 0 <= i < |r.value| && r.value[i].Written?
        ensures StartsWith(r.value[i].path, cfg.output + "/")
      {
        RootedPathInside(cfg.input, cfg.output, wbPath, OutputBase(r.value[i].sheet).value, gen.extension);
      }
    }
  }

  /** Where the engine's path is right, the correction changes nothing: for
      a workbook inside an input directory given without a trailing '/',
      whose place below it does not contain the root again, the corrected
      export is the engine's. */
  lemma GenInsideRootAgrees<T, R, K>(cv: Converter<T, R, K>, gen: Generator<K, R>, cfg: Config, wbPath: string,
                                     sheets: seq<Sheet>)
    requires cfg.input != [] && cfg.input[|cfg.input| - 1] != '/'
    requires InsideRoot(wbPath, cfg.input) && !Occurs(RootedRelative(wbPath, cfg.input), cfg.input)
    ensures GenInsideRoot(cv, gen, cfg, wbPath, sheets) == Gen(cv, gen, cfg, wbPath, sheets)
  {
    var rel := RootedRelative(wbPath, cfg.input);
    RemoveAllLeading(cfg.input, rel);
    assert Relative(wbPath, cfg.input) == rel;
  }

  /** Every kept sheet, and no other, is reported exactly once, whether it
      was written or failed. */
  lemma GenReportsKeptSheets<T, R, K>(cv: Converter<T, R, K>, gen: Generator<K, R>, cfg: Config, wbPath: string, sheets: seq<Sheet>)
    ensures var r := Gen(cv, gen, cfg, wbPath, sheets);
      r.Ok? ==>
        && (set i | 0 <= i < |r.value| :: r.value[i].sheet) == (set s | s in sheets && Kept(s, cfg.ignoreSheetMark) :: s.name)
        && forall i, j :: 0 <= i < j < |r.value| ==> r.value[i].sheet != r.value[j].sheet
  {
    var r := Gen(cv, gen, cfg, wbPath, sheets);
    if r.Ok? {
      ReadWorkbookSpec(cv, sheets, cfg);
      var data := ReadWorkbook(cv, sheets, cfg).value;
      SheetsOfOutcomes(data, r.value);
    }
  }

  /** Outcomes listed entry by entry name the entries' keys. */
  lemma SheetsOfOutcomes<X>(data: Dict<string, X>, out: seq<SheetOutcome>)
    requires |out| == |data| && forall i :: 0 <= i < |data| ==> out[i].sheet == data[i].0
    requires DistinctKeys(data)
    ensures (set i | 0 <= i < |out| :: out[i].sheet) == KeySet(data)
    ensures forall i, j :: 0 <= i < j < |out| ==> out[i].sheet != out[j].sheet
  {
  }

  /** A kept sheet whose name has no dash, in a workbook nested under the
      input root, is written under the mirrored directory to a file named
      after the sheet, whenever the generator renders its table. */
  lemma GenWritesPlainSheet<T, R, K>(cv: Converter<T, R, K>, gen: Generator<K, R>, cfg: Config,
                                     wbPath: string, rel: string, sheets: seq<Sheet>, i: nat)
    requires cfg.input != [] && SplitExt(wbPath).0 == cfg.input + rel
    requires !Occurs(rel, cfg.input) && rel != []
    requires '/' !in gen.extension
    requires Gen(cv, gen, cfg, wbPath, sheets).Ok? && i < |Gen(cv, gen, cfg, wbPath, sheets).value|
    requires var o := Gen(cv, gen, cfg, wbPath, sheets).value[i]; '-' !in o.sheet && '/' !in o.sheet
    requires gen.render(ReadWorkbook(cv, sheets, cfg).value[i].1).Returned?
    ensures var o := Gen(cv, gen, cfg, wbPath, sheets).value[i];
      && o.Written?
      && StartsWith(o.path, cfg.output + rel)
      && BaseName(o.path) == o.sheet + "." + gen.extension
  {
    var o := Gen(cv, gen, cfg, wbPath, sheets).value[i];
    assert OutputBase(o.sheet) == Ok(o.sheet);
    OutputMirrorsInput(cfg.input, cfg.output, wbPath, rel, o.sheet, gen.extension);
  }

  /** An editor's lock file: its base name starts with `~$`. */
  predicate LockFile(path: string)
  {
    StartsWith(BaseName(path), "~$")
  }

  /** Every discovered workbook, in discovery order: lock files are skipped,
      every other workbook is exported, and the first workbook that raises
      stops the run. */
  function GenAll<T, R, K(==)>(cv: Converter<T, R, K>, gen: Generator<K, R>, cfg: Config, files: seq<(string, seq<Sheet>)>)
    : Result<seq<SheetOutcome>>
  {
    RunAll(files, GenStep(cv, gen, cfg))
  }

  /** The export of one workbook, as the run's per-workbook step. */
  function GenStep<T, R, K(==)>(cv: Converter<T, R, K>, gen: Generator<K, R>, cfg: Config)
    : ((string, seq<Sheet>)) -> Result<seq<SheetOutcome>>
  {
    (f: (string, seq<Sheet>)) => Gen(cv, gen, cfg, f.0, f.1)
  }

  /** The run's loop, for any per-workbook `step`. */
  function RunAll<O>(files: seq<(string, seq<Sheet>)>, step: ((string, seq<Sheet>)) -> Result<seq<O>>): Result<seq<O>>
  {
    if files == [] then Ok([])
    else if LockFile(files[0].0) then RunAll(files[1..], step)
    else
      var first :- step(files[0]);
      var rest :- RunAll(files[1..], step);
      Ok(first + rest)
  }

  /** Every workbook of `files` that is not a lock file steps without raising. */
  ghost predicate AllStep<O>(files: seq<(string, seq<Sheet>)>, step: ((string, seq<Sheet>)) -> Result<seq<O>>)
  {
    forall i :: 0 <= i < |files| && !LockFile(files[i].0) ==> step(files[i]).Ok?
  }

  /** The first workbook of `files` that is not a lock file and raises,
      raises `e`: every such workbook before it stepped without raising. */
  ghost predicate StoppedBy<O>(files: seq<(string, seq<Sheet>)>, step: ((string, seq<Sheet>)) -> Result<seq<O>>, e: Exception)
  {
    exists i :: 0 <= i < |files| && !LockFile(files[i].0) && step(files[i]) == Err(e) && StepsBefore(files, step, i)
  }

  /** Every workbook before index `n` that is not a lock file steps without
      raising. */
  ghost predicate StepsBefore<O>(files: seq<(string, seq<Sheet>)>, step: ((string, seq<Sheet>)) -> Result<seq<O>>, n: int)
  {
    forall j :: 0 <= j < n && j < |files| && !LockFile(files[j].0) ==> step(files[j]).Ok?
  }

  lemma StepCons<O>(files: seq<(string, seq<Sheet>)>, step: ((string, seq<Sheet>)) -> Result<seq<O>>, e: Exception)
    requires files != []
    ensures AllStep(files, step) <==> (!LockFile(files[0].0) ==> step(files[0]).Ok?) && AllStep(files[1..], step)
    ensures (LockFile(files[0].0) || step(files[0]).Ok?) && StoppedBy(files[1..], step, e) ==> StoppedBy(files, step, e)
    ensures !LockFile(files[0].0) && step(files[0]) == Err(e) ==> StoppedBy(files, step, e)
  {
    assert forall i :: 1 <= i < |files| ==> files[i] == files[1..][i - 1];
    if (LockFile(files[0].0) || step(files[0]).Ok?) && StoppedBy(files[1..], step, e) {
      var i :| 0 <= i < |files[1..]| && !LockFile(files[1..][i].0) && step(files[1..][i]) == Err(e)
               && StepsBefore(files[1..], step, i);
      assert files[1..][i] == files[i + 1];
      forall k | 0 <= k < i + 1 && !LockFile(files[k].0) ensures step(files[k]).Ok? {
        if k > 0 {
          assert files[k] == files[1..][k - 1];
        }
      }
      assert StepsBefore(files, step, i + 1);
    }
  }

  /** The loop finishes exactly when every workbook that is not a lock file
      steps without raising; a stopped loop was stopped by the error of the
      first such workbook that raised, every one before it having gone
      through. */
  lemma {:induction false} RunAllSpec<O>(files: seq<(string, seq<Sheet>)>, step: ((string, seq<Sheet>)) -> Result<seq<O>>)
    ensures RunAll(files, step).Ok? <==> AllStep(files, step)
    ensures RunAll(files, step).Err? ==> StoppedBy(files, step, RunAll(files, step).error)
  {
    if files != [] {
      RunAllSpec(files[1..], step);
      var tail := RunAll(files[1..], step);
      if !LockFile(files[0].0) && step(files[0]).Err? {
        StepCons(files, step, step(files[0]).error);
      } else {
        assert RunAll(files, step).Ok? <==> tail.Ok?;
        StepCons(files, step, if tail.Err? then tail.error else ValueError);
      }
    }
  }

  /** The lists of `xss`, one after another. */
  function Concat<O>(xss: seq<seq<O>>): seq<O>
  {
    if xss == [] then [] else xss[0] + Concat(xss[1..])
  }

  /** The step of every file, in order. */
  function Steps<O>(files: seq<(string, seq<Sheet>)>, step: ((string, seq<Sheet>)) -> Result<seq<O>>)
    : seq<Result<seq<O>>>
  {
    seq(|files|, i requires 0 <= i < |files| => step(files[i]))
  }

  /** The run is the loop that stops at the first raise, over the workbooks
      that are not lock files: it raises what the first raising workbook
      raised, and otherwise yields every workbook's outcomes, workbook by
      workbook, in discovery order. */
  lemma RunAllCollects<O>(files: seq<(string, seq<Sheet>)>, step: ((string, seq<Sheet>)) -> Result<seq<O>>)
    ensures var c := Collect(Steps(Workbooks(files), step));
      RunAll(files, step) == if c.Ok? then Ok(Concat(c.value)) else Err(c.error)
  {
    LockFilesIgnored(files, step);
    var ws := Workbooks(files);
    forall i | 0 <= i < |ws| ensures !LockFile(ws[i].0) {
      assert ws[i] in ws;
    }
    PlainRunCollects(ws, step);
  }

  lemma {:induction false} PlainRunCollects<O>(ws: seq<(string, seq<Sheet>)>, step: ((string, seq<Sheet>)) -> Result<seq<O>>)
    requires NoLockFiles(ws)
    ensures var c := Collect(Steps(ws, step));
      RunAll(ws, step) == if c.Ok? then Ok(Concat(c.value)) else Err(c.error)
  {
    if ws != [] {
      NoLockFilesTail(ws);
      PlainRunCollects(ws[1..], step);
      var rs := Steps(ws, step);
      assert rs[0] == step(ws[0]);
      StepsTail(ws, step);
      CollectStep(rs);
      var rest := Collect(rs[1..]);
      var tail := RunAll(ws[1..], step);
      if step(ws[0]).Err? {
        assert RunAll(ws, step) == Err(step(ws[0]).error);
      } else if rest.Err? {
        assert tail == Err(rest.error);
        assert RunAll(ws, step) == Err(rest.error);
      } else {
        var xss := [step(ws[0]).value] + rest.value;
        assert xss[1..] == rest.value;
        assert Concat(xss) == step(ws[0]).value + Concat(rest.value);
        assert tail == Ok(Concat(rest.value));
        assert RunAll(ws, step) == Ok(step(ws[0]).value + Concat(rest.value));
      }
    }
  }

  /** No file of `ws` is a lock file. */
  ghost predicate NoLockFiles(ws: seq<(string, seq<Sheet>)>)
  {
    forall i :: 0 <= i < |ws| ==> !LockFile(ws[i].0)
  }

  lemma NoLockFilesTail(ws: seq<(string, seq<Sheet>)>)
    requires ws != [] && NoLockFiles(ws)
    ensures !LockFile(ws[0].0) && NoLockFiles(ws[1..])
  {
    assert forall i :: 0 <= i < |ws[1..]| ==> ws[1..][i] == ws[i + 1];
  }

  lemma StepsTail<O>(files: seq<(string, seq<Sheet>)>, step: ((string, seq<Sheet>)) -> Result<seq<O>>)
    requires files != []
    ensures Steps(files, step)[1..] == Steps(files[1..], step)
  {
    var a := Steps(files, step)[1..];
    var b := Steps(files[1..], step);
    forall i | 0 <= i < |a| ensures a[i] == b[i] {
      assert files[1..][i] == files[i + 1];
    }
  }

  /** The exports of the given workbooks, in order. */
  function GenSteps<T, R, K(==)>(cv: Converter<T, R, K>, gen: Generator<K, R>, cfg: Config, files: seq<(string, seq<Sheet>)>)
    : seq<Result<seq<SheetOutcome>>>
  {
    seq(|files|, i requires 0 <= i < |files| => Gen(cv, gen, cfg, files[i].0, files[i].1))
  }

  /** A finished run exported every workbook that is not a lock file, each
      of them under the input root, and yields their outcomes workbook by
      workbook, in discovery order. A stopped run carries the error of the
      first such workbook that raised, which may be the root check; every
      one before it was exported. */
  lemma GenAllSpec<T, R, K>(cv: Converter<T, R, K>, gen: Generator<K, R>, cfg: Config, files: seq<(string, seq<Sheet>)>)
    ensures var r := GenAll(cv, gen, cfg, files);
      && (r.Ok? ==> forall i :: 0 <= i < |files| && !LockFile(files[i].0) ==>
            StartsWith(files[i].0, cfg.input) && Gen(cv, gen, cfg, files[i].0, files[i].1).Ok?)
      && (r.Ok? ==> var c := Collect(GenSteps(cv, gen, cfg, Workbooks(files)));
            c.Ok? && r.value == Concat(c.value))
      && (r.Err? ==>
            exists i :: 0 <= i < |files| && !LockFile(files[i].0) && Gen(cv, gen, cfg, files[i].0, files[i].1) == Err(r.error)
              && forall j :: 0 <= j < i && !LockFile(files[j].0) ==> Gen(cv, gen, cfg, files[j].0, files[j].1).Ok?)
  {
    GenAllFinished(cv, gen, cfg, files);
    if GenAll(cv, gen, cfg, files).Err? {
      GenAllStopped(cv, gen, cfg, files);
    }
  }

  lemma GenAllFinished<T, R, K>(cv: Converter<T, R, K>, gen: Generator<K, R>, cfg: Config, files: seq<(string, seq<Sheet>)>)
    ensures var r := GenAll(cv, gen, cfg, files);
      && (r.Ok? ==> forall i :: 0 <= i < |files| && !LockFile(files[i].0) ==>
            StartsWith(files[i].0, cfg.input) && Gen(cv, gen, cfg, files[i].0, files[i].1).Ok?)
      && (r.Ok? ==> var c := Collect(GenSteps(cv, gen, cfg, Workbooks(files)));
            c.Ok? && r.value == Concat(c.value))
  {
    var step := GenStep(cv, gen, cfg);
    RunAllSpec(files, step);
    RunAllCollects(files, step);
    GenStepsMatch(cv, gen, cfg, Workbooks(files));
  }

  lemma GenAllStopped<T, R, K>(cv: Converter<T, R, K>, gen: Generator<K, R>, cfg: Config, files: seq<(string, seq<Sheet>)>)
    requires GenAll(cv, gen, cfg, files).Err?
    ensures var e := GenAll(cv, gen, cfg, files).error;
      exists i :: 0 <= i < |files| && !LockFile(files[i].0) && Gen(cv, gen, cfg, files[i].0, files[i].1) == Err(e)
        && forall j :: 0 <= j < i && !LockFile(files[j].0) ==> Gen(cv, gen, cfg, files[j].0, files[j].1).Ok?
  {
    var step := GenStep(cv, gen, cfg);
    RunAllSpec(files, step);
    var e := GenAll(cv, gen, cfg, files).error;
    var i :| 0 <= i < |files| && !LockFile(files[i].0) && step(files[i]) == Err(e) && StepsBefore(files, step, i);
    GenStepsBefore(cv, gen, cfg, files, i);
  }

  lemma GenStepsBefore<T, R, K>(cv: Converter<T, R, K>, gen: Generator<K, R>, cfg: Config, files: seq<(string, seq<Sheet>)>, n: nat)
    requires n <= |files| && StepsBefore(files, GenStep(cv, gen, cfg), n)
    ensures forall j :: 0 <= j < n && !LockFile(files[j].0) ==> Gen(cv, gen, cfg, files[j].0, files[j].1).Ok?
  {
    forall j | 0 <= j < n && !LockFile(files[j].0) ensures Gen(cv, gen, cfg, files[j].0, files[j].1).Ok? {
      assert GenStep(cv, gen, cfg)(files[j]).Ok?;
    }
  }

  lemma GenStepsMatch<T, R, K>(cv: Converter<T, R, K>, gen: Generator<K, R>, cfg: Config, ws: seq<(string, seq<Sheet>)>)
    ensures Steps(ws, GenStep(cv, gen, cfg)) == GenSteps(cv, gen, cfg, ws)
  {
  }

  /** The workbooks that are not lock files. */
  function Workbooks(files: seq<(string, seq<Sheet>)>): (r: seq<(string, seq<Sheet>)>)
    ensures forall f :: f in r <==> f in files && !LockFile(f.0)
  {
    if files == [] then []
    else
      var rest := Workbooks(files[1..]);
      assert forall f :: f in files <==> f == files[0] || f in files[1..];
      if LockFile(files[0].0) then rest else [files[0]] + rest
  }

  /** The file filter keeps discovery order: it is `Filter` with the
      negation of `LockFile`. */
  lemma {:induction false} WorkbooksInOrder(files: seq<(string, seq<Sheet>)>)
    ensures Workbooks(files) == Filter(files, (f: (string, seq<Sheet>)) => !LockFile(f.0))
  {
    if files != [] {
      WorkbooksInOrder(files[1..]);
      WorkbooksHead(files);
    }
  }

  /** Filtering a sequence of files is filtering its front and its back,
      one after the other. */
  lemma WorkbooksConcat(a: seq<(string, seq<Sheet>)>, b: seq<(string, seq<Sheet>)>)
    ensures Workbooks(a + b) == Workbooks(a) + Workbooks(b)
  {
    WorkbooksInOrder(a + b);
    WorkbooksInOrder(a);
    WorkbooksInOrder(b);
    FilterConcat(a, b, (f: (string, seq<Sheet>)) => !LockFile(f.0));
  }

  lemma WorkbooksHead(xs: seq<(string, seq<Sheet>)>)
    requires xs != []
    ensures Workbooks(xs) == (if !LockFile(xs[0].0) then [xs[0]] else []) + Workbooks(xs[1..])
  {
  }

  /** Lock files are never opened: the run is the same with them taken out,
      whatever their contents. */
  lemma {:induction false} LockFilesIgnored<O>(files: seq<(string, seq<Sheet>)>, step: ((string, seq<Sheet>)) -> Result<seq<O>>)
    ensures RunAll(Workbooks(files), step) == RunAll(files, step)
  {
    if files != [] {
      LockFilesIgnored(files[1..], step);
      var rest := Workbooks(files[1..]);
      if !LockFile(files[0].0) {
        assert ([files[0]] + rest)[1..] == rest;
      }
    }
  }
}
