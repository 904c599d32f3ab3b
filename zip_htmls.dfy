/**
 * The HTML report post-processing of utils/zip_htmls.py: the names of the
 * viewable archive and of the flattened reports, the `zip` argument list,
 * the inlining of figure references as base 64 data URIs, and the
 * bookkeeping of `zip_htmls`, which sets `index.html` aside while the other
 * reports are flattened and puts it back afterwards.
 * Running `zip`, walking the directory tree, reading the files and the
 * clock are not modelled: their results are parameters.
 */
module ZipHtmls {
  import opened Text
  import opened Paths
  import opened Values
  import opened Base64

  /** The report that is archived rather than flattened. */
  const Index := "index.html"

  /** The extension every report carries. */
  const HtmlExt := ".html"

  /** The directory name whose figures are archived and inlined. */
  const FiguresDir := "figures"

  lemma ConstantsHaveNoSlash()
    ensures '/' !in Index && '/' !in HtmlExt && '/' !in FiguresDir && |Index| == 10
  {
  }

  // ---------------------------------------------------------------------
  // Names

  /** `name[:-5]`: the name without its last five characters, empty when it is shorter. */
  function Stem(name: string): string {
    if |name| >= 5 then name[..|name| - 5] else ""
  }

  /** The stem of a name ending in `.html` is the name without it. */
  lemma StemOfHtml(name: string)
    requires EndsWith(name, HtmlExt)
    ensures Stem(name) + HtmlExt == name
  {
    assert name == name[..|name| - 5] + name[|name| - 5..];
  }

  /** `dest_zip` of `zip_it_zip_it_good`. */
  function ArchivePath(outputDir: string, destId: string, name: string): string {
    PathJoin(outputDir, Stem(name) + "_" + destId + ".html.zip")
  }

  /** `dest_html` of `zip_htmls`: where the flattened copy of the report `h` is written. */
  function ReportPath(outputDir: string, destId: string, h: string): string {
    PathJoin(outputDir, Stem(Basename(h)) + "_" + destId + HtmlExt)
  }

  /**
   * Both land in the output directory, named after the report's stem and
   * the destination; the archive of a report is its flattened copy's path
   * with `.zip` added.
   */
  lemma ReportNames(outputDir: string, destId: string, h: string)
    requires '/' !in h && '/' !in destId
    ensures Basename(ArchivePath(outputDir, destId, h)) == Stem(h) + "_" + destId + ".html.zip"
    ensures Basename(ReportPath(outputDir, destId, h)) == Stem(h) + "_" + destId + HtmlExt
    ensures ArchivePath(outputDir, destId, h) == ReportPath(outputDir, destId, h) + ".zip"
  {
    SplitFree(h, '/');
    var stem := Stem(h);
    assert '/' !in stem by {
      if |h| >= 5 {
        assert forall k :: 0 <= k < |stem| ==> stem[k] == h[k];
      }
    }
    var report := stem + "_" + destId + HtmlExt;
    assert report + ".zip" == stem + "_" + destId + ".html.zip";
    JoinBasename(outputDir, report);
    JoinBasename(outputDir, report + ".zip");
    assert report[|stem|] == '_';
    JoinThenAppend(outputDir, report, ".zip");
  }

  /** `index.html` is archived as `index_<destination>.html.zip`. */
  lemma IndexArchive(outputDir: string, destId: string)
    ensures ArchivePath(outputDir, destId, Index) == PathJoin(outputDir, "index_" + destId + ".html.zip")
  {
    assert Index[..5] == "index";
    assert Stem(Index) + "_" == "index_";
  }

  // ---------------------------------------------------------------------
  // The zip argument list

  /** One directory visited by `os.walk`: its path relative to the report directory, and its subdirectories. */
  datatype WalkEntry = WalkEntry(rel: string, dirs: seq<string>)

  /** The `figures` entries added for one directory, in the order of its subdirectories. */
  function FiguresIn(rel: string, dirs: seq<string>): seq<string> {
    if |dirs| == 0 then []
    else
      var added := if dirs[|dirs| - 1] == FiguresDir then [PathJoin(rel, FiguresDir)] else [];
      FiguresIn(rel, dirs[..|dirs| - 1]) + added
  }

  /** The `figures` entries added for the whole walk, in walk order. */
  function FigureDirs(walk: seq<WalkEntry>): seq<string> {
    if |walk| == 0 then []
    else FigureDirs(walk[..|walk| - 1]) + FiguresIn(walk[|walk| - 1].rel, walk[|walk| - 1].dirs)
  }

  /** The fixed head of the command: quiet, recursive, into the archive, `index.html` first. */
  function ZipHead(outputDir: string, destId: string, name: string): seq<string> {
    ["zip", "-q", "-r", ArchivePath(outputDir, destId, name), Index]
  }

  /** `command` of `zip_it_zip_it_good`, built as the walk proceeds. */
  method ZipCommand(outputDir: string, destId: string, name: string, walk: seq<WalkEntry>)
    returns (command: seq<string>)
    ensures command == ZipHead(outputDir, destId, name) + FigureDirs(walk)
  {
    command := ZipHead(outputDir, destId, name);
    for i := 0 to |walk|
      invariant command == ZipHead(outputDir, destId, name) + FigureDirs(walk[..i])
    {
      var WalkEntry(rel, dirs) := walk[i];
      var before := command;
      for j := 0 to |dirs|
        invariant command == before + FiguresIn(rel, dirs[..j])
      {
        if dirs[j] == FiguresDir {
          command := command + [PathJoin(rel, FiguresDir)];
        }
        assert dirs[..j + 1][..j] == dirs[..j];
      }
      assert dirs[..|dirs|] == dirs;
      assert walk[..i + 1][..i] == walk[..i];
    }
    assert walk[..|walk|] == walk;
  }

  /** A directory adds an entry exactly when one of its subdirectories is `figures`. */
  lemma {:induction false} FiguresInMembers(rel: string, dirs: seq<string>)
    ensures forall x :: x in FiguresIn(rel, dirs) <==> FiguresDir in dirs && x == PathJoin(rel, FiguresDir)
    ensures NoDuplicates(dirs) ==> |FiguresIn(rel, dirs)| <= 1
  {
    if |dirs| > 0 {
      var init := dirs[..|dirs| - 1];
      FiguresInMembers(rel, init);
      assert dirs == init + [dirs[|dirs| - 1]];
      if NoDuplicates(dirs) && dirs[|dirs| - 1] == FiguresDir {
        assert FiguresDir !in init;
        FiguresInEmpty(rel, init);
      }
    }
  }

  lemma {:induction false} FiguresInEmpty(rel: string, dirs: seq<string>)
    requires FiguresDir !in dirs
    ensures FiguresIn(rel, dirs) == []
  {
    if |dirs| > 0 {
      FiguresInEmpty(rel, dirs[..|dirs| - 1]);
    }
  }

  /**
   * The archive holds, after `index.html`, the `figures` directory of every
   * walked directory that has one, and nothing else.
   */
  lemma {:induction false} FigureDirsMembers(walk: seq<WalkEntry>)
    ensures forall x :: x in FigureDirs(walk) <==>
      exists i :: 0 <= i < |walk| && FiguresDir in walk[i].dirs && x == PathJoin(walk[i].rel, FiguresDir)
  {
    if |walk| > 0 {
      var init := walk[..|walk| - 1];
      var last := walk[|walk| - 1];
      FigureDirsMembers(init);
      FiguresInMembers(last.rel, last.dirs);
      assert FigureDirs(walk) == FigureDirs(init) + FiguresIn(last.rel, last.dirs);
      forall x | x in FigureDirs(walk)
        ensures exists i :: 0 <= i < |walk| && FiguresDir in walk[i].dirs && x == PathJoin(walk[i].rel, FiguresDir)
      {
        if x in FigureDirs(init) {
          var i :| 0 <= i < |init| && FiguresDir in init[i].dirs && x == PathJoin(init[i].rel, FiguresDir);
          assert walk[i] == init[i];
        }
      }
      forall x | exists i :: 0 <= i < |walk| && FiguresDir in walk[i].dirs && x == PathJoin(walk[i].rel, FiguresDir)
        ensures x in FigureDirs(walk)
      {
        var i :| 0 <= i < |walk| && FiguresDir in walk[i].dirs && x == PathJoin(walk[i].rel, FiguresDir);
        if i < |init| {
          assert init[i] == walk[i];
        }
      }
    }
  }

  /** Every added entry names a `figures` directory, at most one per walked directory. */
  lemma {:induction false} FigureDirsShape(walk: seq<WalkEntry>)
    requires forall i :: 0 <= i < |walk| ==> NoDuplicates(walk[i].dirs)
    ensures |FigureDirs(walk)| <= |walk|
    ensures forall k :: 0 <= k < |FigureDirs(walk)| ==> Basename(FigureDirs(walk)[k]) == FiguresDir
  {
    if |walk| > 0 {
      var init := walk[..|walk| - 1];
      var last := walk[|walk| - 1];
      FigureDirsShape(init);
      FiguresInMembers(last.rel, last.dirs);
      ConstantsHaveNoSlash();
      JoinBasename(last.rel, FiguresDir);
      var added := FiguresIn(last.rel, last.dirs);
      assert forall k :: 0 <= k < |added| ==> added[k] == PathJoin(last.rel, FiguresDir) by {
        forall k | 0 <= k < |added| ensures added[k] == PathJoin(last.rel, FiguresDir) {
          assert added[k] in added;
        }
      }
    }
  }

  // ---------------------------------------------------------------------
  // Inlining the figures

  /** The reference a report makes to a figure: `./figures/<name>`. */
  function FigureRef(name: string): string {
    "./figures/" + name
  }

  /** The media-type prefix of every inlined figure, SVG whatever the file holds. */
  const DataPrefix := "data:image/svg+xml;base64, "

  /** What a reference to a figure with these bytes becomes. */
  function DataUri(data: seq<byte>): string {
    DataPrefix + Encode(data)
  }

  /** The inlined data, read back after its prefix, is the figure's bytes. */
  lemma DataUriRoundTrip(data: seq<byte>)
    ensures DataUri(data)[..|DataPrefix|] == DataPrefix
    ensures Decode(DataUri(data)[|DataPrefix|..]) == data
  {
    DecodeEncode(data);
    assert DataUri(data)[|DataPrefix|..] == Encode(data);
  }

  /** A figure of the `figures` directory: its file name and its bytes. */
  type Figure = (string, seq<byte>)

  /** The text once the references to the given figures are replaced one figure after the other. */
  function Inline(txt: string, figures: seq<Figure>): string {
    if |figures| == 0 then txt
    else
      var last := figures[|figures| - 1];
      Replace(Inline(txt, figures[..|figures| - 1]), FigureRef(last.0), DataUri(last.1))
  }

  /** The text `flatten_image_refs` writes: inlined only when there is a `figures` directory. */
  function Flattened(txt: string, figures: Option<seq<Figure>>): string {
    if figures.None? then txt else Inline(txt, figures.value)
  }

  /** `flatten_image_refs`, with the file's text and the figures directory's listing given. */
  method FlattenImageRefs(txt: string, figures: Option<seq<Figure>>) returns (out: string)
    ensures out == Flattened(txt, figures)
    ensures figures.None? ==> out == txt
  {
    out := txt;
    if figures.Some? {
      var figs := figures.value;
      for i := 0 to |figs|
        invariant out == Inline(txt, figs[..i])
      {
        var (name, data) := figs[i];
        out := Replace(out, FigureRef(name), DataUri(data));
        assert figs[..i + 1][..i] == figs[..i];
      }
      assert figs[..|figs|] == figs;
    }
  }

  /** A report that refers to no figure is written out unchanged. */
  lemma {:induction false} InlineWithoutRefs(txt: string, figures: seq<Figure>)
    requires !Contains(txt, "./figures/")
    ensures Inline(txt, figures) == txt
  {
    if |figures| > 0 {
      var last := figures[|figures| - 1];
      InlineWithoutRefs(txt, figures[..|figures| - 1]);
      if Contains(txt, FigureRef(last.0)) {
        ContainsLonger(txt, "./figures/", last.0);
      }
      ReplaceAbsent(txt, FigureRef(last.0), DataUri(last.1));
    }
  }

  /**
   * A single figure: each of its references is replaced by its data URI and
   * the text around them is kept, and a report that refers to it holds its data.
   */
  lemma InlineOne(txt: string, f: Figure)
    ensures Inline(txt, [f]) == Join(SplitAt(txt, FigureRef(f.0)), DataUri(f.1))
    ensures Contains(txt, FigureRef(f.0)) ==> Contains(Inline(txt, [f]), DataUri(f.1))
  {
    assert [f][..0] == [];
    ReplaceIsJoinOfSplit(txt, FigureRef(f.0), DataUri(f.1));
    if Contains(txt, FigureRef(f.0)) {
      ReplacePresent(txt, FigureRef(f.0), DataUri(f.1));
    }
  }

  // ---------------------------------------------------------------------
  // The report directory

  /** `glob.glob("*.html")`: the names ending in `.html` that are not hidden, in listing order. */
  function Glob(names: seq<string>): seq<string> {
    if |names| == 0 then []
    else (if IsReport(names[0]) then [names[0]] else []) + Glob(names[1..])
  }

  predicate IsReport(n: string) {
    EndsWith(n, HtmlExt) && n[0] != '.'
  }

  /** `list.remove(x)`: without the first `x`. */
  function RemoveFirst(xs: seq<string>, x: string): seq<string> {
    if |xs| == 0 then []
    else if xs[0] == x then xs[1..]
    else [xs[0]] + RemoveFirst(xs[1..], x)
  }

  /** The names without `x`. */
  function Without(xs: seq<string>, x: string): seq<string> {
    if |xs| == 0 then []
    else (if xs[0] == x then [] else [xs[0]]) + Without(xs[1..], x)
  }

  /** The names with `a` written `b`. */
  function Substitute(xs: seq<string>, a: string, b: string): seq<string> {
    if |xs| == 0 then []
    else [if xs[0] == a then b else xs[0]] + Substitute(xs[1..], a, b)
  }

  /** The directory's names after `os.rename(src, dst)`, which replaces an existing `dst`. */
  function Renamed(xs: seq<string>, src: string, dst: string): seq<string> {
    if src == dst then xs else Substitute(Without(xs, dst), src, dst)
  }

  /** The reports flattened: every report but `index.html`, each once, in listing order. */
  function WorkList(names: seq<string>): seq<string> {
    if Index in names then RemoveFirst(Glob(names), Index) else Glob(names)
  }

  /**
   * The file read under the name `h` once `index.html` has been set aside
   * as `save` (when `moved`): a report named `save` then holds the index.
   */
  function ReadAfter(read: string -> string, moved: bool, save: string): string -> string {
    (h: string) => if moved && h == save then read(Index) else read(h)
  }

  /** The flattened copy of the report `h`: where it is written, and its text. */
  function Report(outputDir: string, destId: string, h: string,
                  read: string -> string, figures: Option<seq<Figure>>): (string, string)
  {
    (ReportPath(outputDir, destId, h), Flattened(read(h), figures))
  }

  /** The flattened reports written for `work`, in order. */
  function Reports(outputDir: string, destId: string, work: seq<string>,
                   read: string -> string, figures: Option<seq<Figure>>): seq<(string, string)>
  {
    if |work| == 0 then []
    else Reports(outputDir, destId, work[..|work| - 1], read, figures) + [Report(outputDir, destId, work[|work| - 1], read, figures)]
  }

  /**
   * The working directory and the report directory `path` as `zip_htmls`
   * sees them, together with what it produces: the `zip` commands it runs
   * and the flattened reports it writes.
   */
  class ReportDir {
    /** The directory the gear started in, restored at the end. */
    const home: string
    var cwd: string
    /** The names in the report directory, in listing order. */
    var names: seq<string>
    var archives: seq<seq<string>>
    var reports: seq<(string, string)>

    /** A directory lists each name once. */
    predicate Valid()
      reads this
    {
      NoDuplicates(names)
    }

    constructor(home: string, names: seq<string>)
      requires NoDuplicates(names)
      ensures Valid()
      ensures this.home == home && cwd == home && this.names == names
      ensures archives == [] && reports == []
    {
      this.home := home;
      cwd := home;
      this.names := names;
      archives := [];
      reports := [];
    }

    /** `os.rename(src, dst)` inside the report directory. */
    method Rename(src: string, dst: string)
      requires Valid() && src in names
      modifies this
      ensures Valid()
      ensures names == Renamed(old(names), src, dst)
      ensures cwd == old(cwd) && archives == old(archives) && reports == old(reports)
    {
      RenamedDistinct(names, src, dst);
      names := Renamed(names, src, dst);
    }

    /** The loop of `zip_htmls`: one flattened report per name of `work`, in order. */
    method WriteReports(outputDir: string, destId: string, work: seq<string>,
                        read: string -> string, figures: Option<seq<Figure>>)
      modifies this
      ensures reports == old(reports) + Reports(outputDir, destId, work, read, figures)
      ensures cwd == old(cwd) && names == old(names) && archives == old(archives)
    {
      for k := 0 to |work|
        invariant reports == old(reports) + Reports(outputDir, destId, work[..k], read, figures)
        invariant cwd == old(cwd) && names == old(names) && archives == old(archives)
      {
        var h := work[k];
        var out := FlattenImageRefs(read(h), figures);
        reports := reports + [(ReportPath(outputDir, destId, h), out)];
        assert (ReportPath(outputDir, destId, h), out) == Report(outputDir, destId, h, read, figures);
        assert work[..k + 1][..k] == work[..k];
      }
      assert work[..|work|] == work;
    }

    /**
     * `zip_htmls(output_dir, destination_id, path)`. `pathExists` says
     * whether `path` exists, `walk` is what `os.walk(path)` yields, `stamp`
     * the formatted clock, `read` the text of each report and `figures` the
     * listing of its `figures` directory, if it has one.
     */
    method ZipHtmls(outputDir: string, destId: string, path: string, pathExists: bool,
                    walk: seq<WalkEntry>, stamp: string, read: string -> string,
                    figures: Option<seq<Figure>>)
      requires Valid()
      modifies this
      ensures Valid()
      ensures cwd == home
      ensures !pathExists || |Glob(old(names))| == 0 ==>
        names == old(names) && archives == old(archives) && reports == old(reports)
      ensures pathExists && |Glob(old(names))| > 0 ==>
        var moved := Index in old(names);
        var save := stamp + "_" + Index;
        && archives == old(archives) + (if moved then [ZipHead(outputDir, destId, Index) + FigureDirs(walk)] else [])
        && names == (if moved then Renamed(Renamed(old(names), Index, save), save, Index) else old(names))
        && reports == old(reports) + Reports(outputDir, destId, WorkList(old(names)), ReadAfter(read, moved, save), figures)
    {
      if pathExists {
        cwd := path;
        if |Glob(names)| > 0 {
          ProcessReports(outputDir, destId, walk, stamp + "_" + Index, read, figures);
        }
      }
      cwd := home;
    }

    /**
     * The work done in the report directory once it holds reports: the
     * index is archived and set aside under `save`, every other report is
     * flattened, and the index is put back.
     */
    method ProcessReports(outputDir: string, destId: string, walk: seq<WalkEntry>, save: string,
                          read: string -> string, figures: Option<seq<Figure>>)
      requires Valid()
      modifies this
      ensures Valid()
      ensures cwd == old(cwd)
      ensures var moved := Index in old(names);
        && archives == old(archives) + (if moved then [ZipHead(outputDir, destId, Index) + FigureDirs(walk)] else [])
        && names == (if moved then Renamed(Renamed(old(names), Index, save), save, Index) else old(names))
        && reports == old(reports) + Reports(outputDir, destId, WorkList(old(names)), ReadAfter(read, moved, save), figures)
    {
      var moved := Index in names;
      var work := WorkList(names);
      if moved {
        SavedIsPresent(names, save);
        SetIndexAside(outputDir, destId, walk, save);
      }
      WriteReports(outputDir, destId, work, ReadAfter(read, moved, save), figures);
      if moved {
        Rename(save, Index);
      }
    }

    /** `index.html` is archived with the `figures` directories, then renamed to `save`. */
    method SetIndexAside(outputDir: string, destId: string, walk: seq<WalkEntry>, save: string)
      requires Valid() && Index in names
      modifies this
      ensures Valid()
      ensures archives == old(archives) + [ZipHead(outputDir, destId, Index) + FigureDirs(walk)]
      ensures names == Renamed(old(names), Index, save)
      ensures cwd == old(cwd) && reports == old(reports)
    {
      var command := ZipCommand(outputDir, destId, Index, walk);
      archives := archives + [command];
      Rename(Index, save);
    }
  }

  /** The renamed index is in the directory to be renamed back. */
  lemma SavedIsPresent(names: seq<string>, save: string)
    requires Index in names
    ensures save in Renamed(names, Index, save)
  {
    RenamedMembers(names, Index, save);
  }

  // ---------------------------------------------------------------------
  // Properties of the bookkeeping

  /** A list starting with `x` is free of repeats when its tail is and does not hold `x`. */
  lemma ConsDistinct(x: string, ys: seq<string>)
    requires x !in ys && NoDuplicates(ys)
    ensures NoDuplicates([x] + ys)
  {
    var xs := [x] + ys;
    forall i, j | 0 <= i < j < |xs| ensures xs[i] != xs[j] {
      assert xs[j] == ys[j - 1];
      if i > 0 {
        assert xs[i] == ys[i - 1];
      }
    }
  }

  lemma TailDistinct(xs: seq<string>)
    requires |xs| > 0 && NoDuplicates(xs)
    ensures xs[0] !in xs[1..] && NoDuplicates(xs[1..])
  {
    forall i, j | 0 <= i < j < |xs[1..]| ensures xs[1..][i] != xs[1..][j] {
      assert xs[1..][i] == xs[i + 1] && xs[1..][j] == xs[j + 1];
    }
  }

  lemma {:induction false} WithoutMembers(xs: seq<string>, x: string)
    ensures forall y :: y in Without(xs, x) <==> y in xs && y != x
    ensures NoDuplicates(xs) ==> NoDuplicates(Without(xs, x))
    ensures x !in xs ==> Without(xs, x) == xs
  {
    if |xs| > 0 {
      WithoutMembers(xs[1..], x);
      assert xs == [xs[0]] + xs[1..];
      if NoDuplicates(xs) {
        TailDistinct(xs);
        if xs[0] != x {
          ConsDistinct(xs[0], Without(xs[1..], x));
        }
      }
    }
  }

  lemma {:induction false} SubstituteMembers(xs: seq<string>, a: string, b: string)
    requires a != b
    ensures forall y :: y in Substitute(xs, a, b) <==> (y in xs && y != a) || (y == b && a in xs)
    ensures NoDuplicates(xs) && b !in xs ==> NoDuplicates(Substitute(xs, a, b))
    ensures a !in xs ==> Substitute(xs, a, b) == xs
  {
    if |xs| > 0 {
      SubstituteMembers(xs[1..], a, b);
      assert xs == [xs[0]] + xs[1..];
      if NoDuplicates(xs) && b !in xs {
        TailDistinct(xs);
        ConsDistinct(if xs[0] == a then b else xs[0], Substitute(xs[1..], a, b));
      }
    }
  }

  /** Renaming: `dst` is present, `src` is gone, every other name stays. */
  lemma RenamedMembers(xs: seq<string>, src: string, dst: string)
    requires src in xs
    ensures forall y :: y in Renamed(xs, src, dst) <==> y == dst || (y in xs && y != src)
  {
    if src != dst {
      WithoutMembers(xs, dst);
      SubstituteMembers(Without(xs, dst), src, dst);
    }
  }

  /** A directory stays free of repeated names across a rename. */
  lemma RenamedDistinct(xs: seq<string>, src: string, dst: string)
    requires NoDuplicates(xs)
    ensures NoDuplicates(Renamed(xs, src, dst))
  {
    if src != dst {
      WithoutMembers(xs, dst);
      SubstituteMembers(Without(xs, dst), src, dst);
    }
  }

  /** Renaming to an unused name and back restores the directory exactly. */
  lemma {:induction false} RenameBack(xs: seq<string>, src: string, dst: string)
    requires NoDuplicates(xs) && src in xs && dst !in xs
    ensures Renamed(Renamed(xs, src, dst), dst, src) == xs
  {
    WithoutMembers(xs, dst);
    var ys := Substitute(xs, src, dst);
    SubstituteMembers(xs, src, dst);
    SubstituteMembers(ys, dst, src);
    WithoutMembers(ys, src);
    SubstituteBack(xs, src, dst);
  }

  lemma {:induction false} SubstituteBack(xs: seq<string>, a: string, b: string)
    requires b !in xs
    ensures Substitute(Substitute(xs, a, b), b, a) == xs
  {
    if |xs| > 0 {
      assert xs[0] != b;
      SubstituteBack(xs[1..], a, b);
    }
  }

  /**
   * After a normal run, in which the saved name was not taken, `index.html`
   * is back under its own name and the directory lists what it did before.
   */
  lemma NormalRunKeepsNames(names: seq<string>, stamp: string)
    requires NoDuplicates(names) && Index in names && stamp + "_" + Index !in names
    ensures Renamed(Renamed(names, Index, stamp + "_" + Index), stamp + "_" + Index, Index) == names
  {
    RenameBack(names, Index, stamp + "_" + Index);
  }

  /** A report already named like the saved index is lost: the rename replaces it. */
  lemma TakenSaveNameIsLost(names: seq<string>, stamp: string)
    requires NoDuplicates(names) && Index in names && stamp + "_" + Index in names
    ensures var save := stamp + "_" + Index;
      var after := Renamed(Renamed(names, Index, save), save, Index);
      save !in after && forall y :: y in after <==> y in names && y != save
  {
    var save := stamp + "_" + Index;
    assert save != Index by {
      assert |save| > |Index|;
    }
    RenamedMembers(names, Index, save);
    RenamedMembers(Renamed(names, Index, save), save, Index);
  }

  lemma {:induction false} GlobMembers(names: seq<string>)
    ensures forall y :: y in Glob(names) <==> y in names && IsReport(y)
    ensures NoDuplicates(names) ==> NoDuplicates(Glob(names))
  {
    if |names| > 0 {
      GlobMembers(names[1..]);
      assert names == [names[0]] + names[1..];
      if NoDuplicates(names) {
        TailDistinct(names);
        if IsReport(names[0]) {
          ConsDistinct(names[0], Glob(names[1..]));
        } else {
          assert Glob(names) == Glob(names[1..]);
        }
      }
    }
  }

  lemma {:induction false} RemoveFirstMembers(xs: seq<string>, x: string)
    requires NoDuplicates(xs)
    ensures forall y :: y in RemoveFirst(xs, x) <==> y in xs && y != x
    ensures NoDuplicates(RemoveFirst(xs, x))
  {
    if |xs| > 0 {
      TailDistinct(xs);
      RemoveFirstMembers(xs[1..], x);
      assert xs == [xs[0]] + xs[1..];
      if xs[0] != x {
        ConsDistinct(xs[0], RemoveFirst(xs[1..], x));
      }
    }
  }

  /** The reports flattened are the directory's reports other than `index.html`, each once. */
  lemma WorkListMembers(names: seq<string>)
    requires NoDuplicates(names)
    ensures forall y :: y in WorkList(names) <==> y in names && IsReport(y) && y != Index
    ensures NoDuplicates(WorkList(names))
  {
    GlobMembers(names);
    RemoveFirstMembers(Glob(names), Index);
    assert IsReport(Index) by {
      assert Index[5..] == HtmlExt;
    }
  }

  /** One report is written per report of the work list, to that report's path. */
  lemma {:induction false} ReportsShape(outputDir: string, destId: string, work: seq<string>,
                                        read: string -> string, figures: Option<seq<Figure>>)
    ensures |Reports(outputDir, destId, work, read, figures)| == |work|
    ensures forall k :: 0 <= k < |work| ==>
      Reports(outputDir, destId, work, read, figures)[k] == Report(outputDir, destId, work[k], read, figures)
  {
    if |work| > 0 {
      var init := work[..|work| - 1];
      ReportsShape(outputDir, destId, init, read, figures);
      var r, p := Reports(outputDir, destId, work, read, figures), Reports(outputDir, destId, init, read, figures);
      assert r == p + [Report(outputDir, destId, work[|work| - 1], read, figures)];
      forall k | 0 <= k < |init|
        ensures r[k] == Report(outputDir, destId, work[k], read, figures)
      {
        assert r[k] == p[k] && init[k] == work[k];
      }
    }
  }
}
