/**
 * The per-file logic of the gear's fmriprep pipeline (fw_gear_tedana/main.py):
 * BIDS task labels and run prefixes derived from echo file names, the
 * parsing of `ls` output, the list of tasks, the renaming of tedana's outputs,
 * the session archive name, and the construction of the tedana command.
 * Running `ls`, `zip` and tedana, reading the echo-time sidecars and the
 * renames themselves are I/O and are not part of this model.
 */
module GearMain {
  import opened Text
  import opened Paths
  import opened Values
  import Parser

  /** The name of the tool, which the gear's outputs carry. */
  const Tool := "tedana"

  /** The directory the unpacked pipeline's outputs sit in, and its BIDS derivatives directory. */
  const Pipeline := "fmriprep"
  const Derivatives := "derivatives"

  lemma ToolHasNoSlash()
    ensures |Tool| > 0 && '/' !in Tool
  {
  }

  // ---------------------------------------------------------------------
  // BIDS file-name segments

  /** `f.split("/")[-1].split("_")`: the `_`-separated segments of the file's name. */
  function Segments(f: string): seq<string> {
    Split(Basename(f), '_')
  }

  /** The segments hold no `_` and join back into the name. */
  lemma SegmentsOfName(f: string)
    ensures forall i :: 0 <= i < |Segments(f)| ==> '_' !in Segments(f)[i]
    ensures Join(Segments(f), "_") == Basename(f)
  {
    SplitPiecesFree(Basename(f), '_');
    JoinSplit(Basename(f), '_');
  }

  /** `i` is the index of the first segment mentioning `key`. */
  predicate IsFirst(segs: seq<string>, key: string, i: nat) {
    i < |segs| && Contains(segs[i], key) && forall j :: 0 <= j < i ==> !Contains(segs[j], key)
  }

  /** `[idx for idx, s in enumerate(segs) if key in s]`, first element if any. */
  function FirstMatch(segs: seq<string>, key: string): (r: Option<nat>)
    ensures r.Some? ==> r.value < |segs|
  {
    if |segs| == 0 then None
    else if Contains(segs[0], key) then Some(0)
    else match FirstMatch(segs[1..], key)
      case None => None
      case Some(i) => Some(i + 1)
  }

  /** `FirstMatch` finds the first segment mentioning the key, and finds none only when none does. */
  lemma {:induction false} FirstMatchIsFirst(segs: seq<string>, key: string)
    ensures FirstMatch(segs, key).Some? ==> IsFirst(segs, key, FirstMatch(segs, key).value)
    ensures FirstMatch(segs, key).None? <==> forall j :: 0 <= j < |segs| ==> !Contains(segs[j], key)
  {
    if |segs| > 0 && !Contains(segs[0], key) {
      FirstMatchIsFirst(segs[1..], key);
      assert forall j :: 1 <= j < |segs| ==> segs[j] == segs[1..][j - 1];
    }
  }

  /** There is one first match: `IsFirst` pins down what `FirstMatch` returns. */
  lemma FirstMatchUnique(segs: seq<string>, key: string, i: nat)
    requires IsFirst(segs, key, i)
    ensures FirstMatch(segs, key) == Some(i)
  {
    FirstMatchIsFirst(segs, key);
  }

  /** Python's `xs[i:j]` for in-range bounds: empty when `j <= i`. */
  function Slice<T>(xs: seq<T>, i: nat, j: nat): seq<T>
    requires i <= |xs| && j <= |xs|
  {
    if i <= j then xs[i..j] else []
  }

  /**
   * A bold file's task label (main.py, `fmriprep_get_tasks`): its name's
   * segments from the first mentioning "task" up to, not including, the first
   * mentioning "echo", re-joined with `_`. Indexing the empty list of matches
   * raises, which is the error result here.
   */
  function TaskLabel(f: string): Result<string> {
    var segs := Segments(f);
    match FirstMatch(segs, "task")
    case None => Err(NoTaskSegment(f))
    case Some(t) =>
      match FirstMatch(segs, "echo")
      case None => Err(NoEchoSegment(f))
      case Some(e) => Ok(Join(Slice(segs, t, e), "_"))
  }

  /**
   * The label's own `_`-segments are exactly the name's segments from the
   * first "task" one up to the first "echo" one; when the echo segment comes
   * first the label is empty.
   */
  lemma TaskLabelSegments(f: string, t: nat, e: nat)
    requires IsFirst(Segments(f), "task", t) && IsFirst(Segments(f), "echo", e)
    ensures TaskLabel(f).Ok?
    ensures e <= t ==> TaskLabel(f).value == ""
    ensures t < e ==> Split(TaskLabel(f).value, '_') == Segments(f)[t..e]
  {
    var segs := Segments(f);
    FirstMatchUnique(segs, "task", t);
    FirstMatchUnique(segs, "echo", e);
    if t < e {
      SegmentsOfName(f);
      SplitJoin(segs[t..e], '_');
    }
  }

  /**
   * A name yields a task label exactly when it mentions both "task" and
   * "echo": neither word contains `_`, so each lies inside one segment.
   */
  lemma TaskLabelDefined(f: string)
    ensures TaskLabel(f).Ok? <==> Contains(Basename(f), "task") && Contains(Basename(f), "echo")
  {
    var segs := Segments(f);
    SegmentsOfName(f);
    ContainsJoin(segs, '_', "task");
    ContainsJoin(segs, '_', "echo");
    FirstMatchIsFirst(segs, "task");
    FirstMatchIsFirst(segs, "echo");
  }

  /**
   * The run prefix of an echo file (main.py, `run_fmriprep_pipe`): its name's
   * segments before the first mentioning "echo", re-joined with `_`.
   */
  function RunPrefix(f: string): Result<string> {
    var segs := Segments(f);
    match FirstMatch(segs, "echo")
    case None => Err(NoEchoSegment(f))
    case Some(e) => Ok(Join(segs[..e], "_"))
  }

  /**
   * The run prefix starts the file's name (followed by `_` when not empty),
   * consists of exactly the segments before the first echo segment, and
   * holds no `/`. A name mentioning "echo", as every file the echo search
   * finds does, always has one.
   */
  lemma RunPrefixOfName(f: string)
    ensures Contains(Basename(f), "echo") ==> RunPrefix(f).Ok?
    ensures RunPrefix(f).Ok? ==>
      var p := RunPrefix(f).value;
      var e := FirstMatch(Segments(f), "echo").value;
      && p <= Basename(f)
      && '/' !in p
      && (e == 0 ==> p == "")
      && (e > 0 ==> p + "_" <= Basename(f) && Split(p, '_') == Segments(f)[..e])
  {
    var segs := Segments(f);
    SegmentsOfName(f);
    ContainsJoin(segs, '_', "echo");
    FirstMatchIsFirst(segs, "echo");
    BasenameHasNoSlash(f);
    if RunPrefix(f).Ok? {
      var e := FirstMatch(segs, "echo").value;
      var p := RunPrefix(f).value;
      if e > 0 {
        JoinPrefix(segs, e, "_");
        SplitJoin(segs[..e], '_');
        assert p + "_" <= Basename(f);
      }
      assert forall k :: 0 <= k < |p| ==> p[k] == Basename(f)[k];
    }
  }

  // ---------------------------------------------------------------------
  // Listing files

  /** `stdout.strip("\n").split("\n")`: the names `ls -d <pattern>` printed (main.py, `searchfiles`). */
  function ParseListing(stdout: string): seq<string> {
    Split(Strip(stdout, '\n'), '\n')
  }

  /** A task whose echo search yields an empty name is skipped. */
  predicate SkipTask(echoFiles: seq<string>) {
    "" in echoFiles
  }

  /**
   * `ls` prints each match on its own line; parsing that output gives back
   * exactly the matches, so a search that found files is never skipped.
   */
  lemma ListingRoundTrip(files: seq<string>)
    requires |files| >= 1
    requires forall i :: 0 <= i < |files| ==> files[i] != "" && '\n' !in files[i]
    ensures ParseListing(Join(files, "\n") + "\n") == files
    ensures !SkipTask(ParseListing(Join(files, "\n") + "\n"))
  {
    var j := Join(files, "\n");
    JoinEnds(files, "\n");
    var last := files[|files| - 1];
    assert j[0] == files[0][0];
    assert j[|j| - 1] == last[|last| - 1];
    StripOneTrailing(j, '\n');
    SplitJoin(files, '\n');
  }

  /**
   * When nothing matches, `ls` prints no name and the result is `[""]`:
   * never empty. An echo search that found nothing is skipped; a bold
   * search that found nothing makes the search for tasks fail.
   */
  lemma EmptyListing(stdout: string)
    requires forall k :: 0 <= k < |stdout| ==> stdout[k] == '\n'
    ensures ParseListing(stdout) == [""]
    ensures SkipTask(ParseListing(stdout))
    ensures TaskLabel(ParseListing(stdout)[0]).Err?
  {
    assert StripLeft(stdout, '\n') == "";
  }

  // ---------------------------------------------------------------------
  // The list of tasks

  /**
   * `list(set(xs))`: each element once. Python promises no order; this
   * one keeps the last occurrence of each.
   */
  function Distinct(xs: seq<string>): (r: seq<string>)
    ensures forall x :: x in r <==> x in xs
    ensures NoDuplicates(r)
  {
    if |xs| == 0 then []
    else if xs[0] in xs[1..] then Distinct(xs[1..])
    else [xs[0]] + Distinct(xs[1..])
  }

  /**
   * `fmriprep_get_tasks`, given the bold files the `ls` search found (the
   * result of `ParseListing`): every listed file's task label, each
   * once. The first file without a label stops the search with its error.
   */
  method FmriprepGetTasks(files: seq<string>) returns (r: Result<seq<string>>)
    ensures r.Ok? <==> forall i :: 0 <= i < |files| ==> TaskLabel(files[i]).Ok?
    ensures r.Err? ==> exists i :: (0 <= i < |files| && TaskLabel(files[i]) == Err(r.error) &&
      forall k :: 0 <= k < i ==> TaskLabel(files[k]).Ok?)
    ensures r.Ok? ==> NoDuplicates(r.value)
    ensures r.Ok? ==> forall t :: t in r.value <==> exists i :: 0 <= i < |files| && TaskLabel(files[i]) == Ok(t)
  {
    var results: seq<string> := [];
    for i := 0 to |files|
      invariant |results| == i
      invariant forall k :: 0 <= k < i ==> TaskLabel(files[k]) == Ok(results[k])
    {
      var found := TaskLabel(files[i]);
      if found.Err? {
        return Err(found.error);
      }
      results := results + [found.value];
    }
    LabelsCovered(files, results);
    r := Ok(Distinct(results));
  }

  /** A list holding the label of each file, in order, holds exactly the files' labels. */
  lemma LabelsCovered(files: seq<string>, results: seq<string>)
    requires |results| == |files|
    requires forall k :: 0 <= k < |files| ==> TaskLabel(files[k]) == Ok(results[k])
    ensures forall t :: t in results <==> exists i :: 0 <= i < |files| && TaskLabel(files[i]) == Ok(t)
  {
    forall t | t in results
      ensures exists i :: 0 <= i < |files| && TaskLabel(files[i]) == Ok(t)
    {
      var k :| 0 <= k < |results| && results[k] == t;
      assert TaskLabel(files[k]) == Ok(t);
    }
  }

  // ---------------------------------------------------------------------
  // The explicit mask

  /** The name pattern of a run's brain mask, searched for when `explicit-mask` is set. */
  const MaskSuffix := "_desc-brain_mask.nii.gz"

  /** The mask pattern as main.py builds it: from `app_options["prefix"]`. */
  function ExplicitMaskAsWritten(app: map<string, Value>): Result<string> {
    if "prefix" !in app then Err(MissingKey("prefix"))
    else if app["prefix"].Str? then Ok(app["prefix"].s + MaskSuffix)
    else Err(NotText("prefix"))
  }

  /**
   * The app options `parse_config` returns never hold "prefix" (the run
   * prefix is kept in the per-run argument options), so a run with
   * `explicit-mask` set stops at the lookup.
   */
  lemma ExplicitMaskLookupFails(ctx: Parser.Context, app: map<string, Value>, logged: bool)
    requires Parser.AppPromises(ctx, app, logged)
    ensures ExplicitMaskAsWritten(app) == Err(MissingKey("prefix"))
  {
    assert "prefix" !in Parser.AppOptionKeys + {"sid", "sesid", "work-dir", "inputtype"};
  }

  /** The mask pattern built from the run prefix just derived, as intended. */
  function ExplicitMask(echoFile: string): Result<string> {
    match RunPrefix(echoFile)
    case Err(e) => Err(e)
    case Ok(p) => Ok(p + MaskSuffix)
  }

  /** An echo file always has a mask pattern, and it names the mask of the file's own run. */
  lemma ExplicitMaskOfRun(echoFile: string)
    requires Contains(Basename(echoFile), "echo")
    ensures ExplicitMask(echoFile).Ok?
    ensures var p := RunPrefix(echoFile).value;
      && ExplicitMask(echoFile).value == p + MaskSuffix
      && p <= Basename(echoFile)
      && '/' !in p
  {
    RunPrefixOfName(echoFile);
  }

  // ---------------------------------------------------------------------
  // Output directory and renaming tedana's outputs

  /** `output_analysis_id_dir` of `run_fmriprep_pipe`: under `derivatives/tedana` for the "bids" layout. */
  function OutputAnalysisDir(layout: Value, workDir: string, destId: string, sid: string, sesid: string): string {
    var base := PathJoin(PathJoin(workDir, destId), Pipeline);
    if layout == Str("bids") then
      PathJoin(PathJoin(PathJoin(PathJoin(PathJoin(base, Derivatives), Tool), "sub-" + sid), "ses-" + sesid), "func")
    else
      PathJoin(PathJoin(PathJoin(base, "sub-" + sid), "ses-" + sesid), "func")
  }

  /** With the "bids" layout, every output path mentions the tool's name in its directory part. */
  lemma BidsOutputDirMentionsTool(workDir: string, destId: string, sid: string, sesid: string)
    ensures Contains(OutputAnalysisDir(Str("bids"), workDir, destId, sid, sesid), Tool)
  {
    var base := PathJoin(PathJoin(workDir, destId), Pipeline);
    var d := PathJoin(PathJoin(base, Derivatives), Tool);
    PrefixContains(Tool, "");
    assert Tool + "" == Tool;
    JoinAddsContains(PathJoin(base, Derivatives), Tool, Tool);
    JoinKeepsContains(d, "sub-" + sid, Tool);
    JoinKeepsContains(PathJoin(d, "sub-" + sid), "ses-" + sesid, Tool);
    JoinKeepsContains(PathJoin(PathJoin(d, "sub-" + sid), "ses-" + sesid), "func", Tool);
  }

  /** The `derivatives` directory of the unpacked pipeline, under which the "bids" layout writes. */
  function BidsBase(workDir: string, destId: string): string {
    PathJoin(PathJoin(PathJoin(workDir, destId), Pipeline), Derivatives)
  }

  /** The subject's and session's `func` directory: `sub-<id>/ses-<id>/func`. */
  function SessionFunc(sid: string, sesid: string): string {
    PathJoin(PathJoin("sub-" + sid, "ses-" + sesid), "func")
  }

  /** The "bids" directory is `<base>/tedana/<sub>`. */
  lemma BidsOutputDirShape(workDir: string, destId: string, sid: string, sesid: string)
    ensures OutputAnalysisDir(Str("bids"), workDir, destId, sid, sesid)
      == BidsBase(workDir, destId) + "/" + Tool + "/" + SessionFunc(sid, sesid)
  {
    var base := BidsBase(workDir, destId);
    var s1, s2 := "sub-" + sid, "ses-" + sesid;
    assert base[|base| - 1] == 's';
    assert PathJoin(base, Tool) == base + "/" + Tool;
    var x := base + "/" + Tool;
    assert x[|x| - 1] == 'a';
    assert PathJoin(x, s1) == x + "/" + s1;
    JoinUnder(x, s1, s2);
    JoinUnder(x, PathJoin(s1, s2), "func");
  }

  /** The `derivatives` directory holds "tedana" only when the work directory or the destination does. */
  lemma BidsBaseFree(workDir: string, destId: string)
    ensures !Contains(workDir, Tool) && !Contains(destId, Tool) ==> !Contains(BidsBase(workDir, destId), Tool)
  {
    var pipeline := PathJoin(PathJoin(workDir, destId), Pipeline);
    ToolHasNoSlash();
    JoinContains(pipeline, Derivatives, Tool);
    JoinContains(PathJoin(workDir, destId), Pipeline, Tool);
    JoinContains(workDir, destId, Tool);
    DerivativesFree();
    PipelineFree();
  }

  /** The derivatives directory is not named with "tedana". */
  lemma DerivativesFree()
    ensures !Contains(Derivatives, Tool)
  {
    MissingChar(Derivatives, Tool, 4);
  }

  /** The pipeline's directory is not named with "tedana". */
  lemma PipelineFree()
    ensures !Contains(Pipeline, Tool)
  {
    MissingChar(Pipeline, Tool, 4);
  }

  /** The `func` directory's path holds "tedana" only when a label does. */
  lemma SessionFuncFree(sid: string, sesid: string)
    ensures !Contains(sid, Tool) && !Contains(sesid, Tool) ==> !Contains(SessionFunc(sid, sesid), Tool)
  {
    var s1, s2 := "sub-" + sid, "ses-" + sesid;
    ToolHasNoSlash();
    JoinContains(PathJoin(s1, s2), "func", Tool);
    JoinContains(s1, s2, Tool);
    ContainsPastPrefix("sub-", sid, Tool);
    ContainsPastPrefix("ses-", sesid, Tool);
    ContainsHasChars("func", Tool);
    assert Tool[0] == 't' && 't' !in "func";
  }

  /**
   * An output `<dir>/tedana<rest>` of the "bids" layout, where no label or
   * directory the gear is given holds "tedana": main.py's rule moves it out
   * of its directory.
   */
  lemma BidsRenameLeavesDir(workDir: string, destId: string, sid: string, sesid: string, rest: string, prefix: string)
    requires !Contains(workDir, Tool) && !Contains(destId, Tool) && !Contains(sid, Tool) && !Contains(sesid, Tool)
    requires !Contains(rest, Tool) && '/' !in rest
    requires '/' !in prefix && prefix != Tool && !Contains(Tool + rest, prefix)
    ensures var dir := OutputAnalysisDir(Str("bids"), workDir, destId, sid, sesid);
      var p := dir + "/" + Tool + rest;
      && DirPart(p) == dir
      && RenameTargetAsWritten(p, prefix).Some?
      && DirPart(RenameTargetAsWritten(p, prefix).value) != dir
  {
    BidsOutputDirShape(workDir, destId, sid, sesid);
    BidsBaseFree(workDir, destId);
    SessionFuncFree(sid, sesid);
    RenameAsWrittenChangesDir(BidsBase(workDir, destId), SessionFunc(sid, sesid), rest, prefix);
  }

  /** The intended rule moves an output `<dir>/tedana<rest>` within `dir`. */
  lemma RenameKeepsDir(dir: string, rest: string, prefix: string)
    requires '/' !in rest && '/' !in prefix && !Contains(Tool + rest, prefix)
    ensures var p := dir + "/" + Tool + rest;
      && RenameTarget(p, prefix).Some?
      && DirPart(RenameTarget(p, prefix).value) == dir
  {
    var p := dir + "/" + Tool + rest;
    ToolHasNoSlash();
    assert '/' !in Tool + rest;
    assert p == dir + "/" + (Tool + rest);
    PartsOfPath(dir, Tool + rest);
    RenameTargetStaysInDir(p, prefix);
  }

  /**
   * Where main.py moves an output of tedana, as written: nowhere when the
   * file's name already holds the prefix, otherwise to the whole path with
   * every "tedana" replaced by the prefix, directories included.
   */
  function RenameTargetAsWritten(path: string, prefix: string): Option<string> {
    if Contains(Basename(path), prefix) then None
    else Some(Replace(path, Tool, prefix))
  }

  /**
   * An output of the "bids" layout, `<base>/tedana/<sub>/tedana<rest>` with
   * `<sub>` = `sub-<id>/ses-<id>/func`, is moved into a directory that does
   * not exist: the rename replaces the `derivatives/tedana` directory too.
   */
  lemma RenameAsWrittenChangesDir(base: string, sub: string, rest: string, prefix: string)
    requires !Contains(base, Tool) && !Contains(sub, Tool) && !Contains(rest, Tool)
    requires '/' !in rest && '/' !in prefix && prefix != Tool
    requires !Contains(Tool + rest, prefix)
    ensures var p := base + "/" + Tool + "/" + sub + "/" + Tool + rest;
      var moved := base + "/" + prefix + "/" + sub + "/" + prefix + rest;
      && RenameTargetAsWritten(p, prefix) == Some(moved)
      && DirPart(p) == base + "/" + Tool + "/" + sub
      && DirPart(moved) == base + "/" + prefix + "/" + sub
      && DirPart(moved) != DirPart(p)
  {
    ToolHasNoSlash();
    ReplaceBothOccurrences(base, sub, rest, Tool, prefix);
    DirectoryRenamed(base, sub, rest, Tool, prefix);
  }

  /** The directory `<base>/<pat>/<sub>` of the path becomes `<base>/<rep>/<sub>`. */
  lemma DirectoryRenamed(base: string, sub: string, rest: string, pat: string, rep: string)
    requires '/' !in rest && '/' !in rep && '/' !in pat && rep != pat
    ensures var p := base + "/" + pat + "/" + sub + "/" + pat + rest;
      var moved := base + "/" + rep + "/" + sub + "/" + rep + rest;
      && Basename(p) == pat + rest
      && DirPart(p) == base + "/" + pat + "/" + sub
      && DirPart(moved) == base + "/" + rep + "/" + sub
      && DirPart(moved) != DirPart(p)
  {
    var d1, d2 := base + "/" + pat + "/" + sub, base + "/" + rep + "/" + sub;
    PartsOfPath(d1, pat + rest);
    assert base + "/" + pat + "/" + sub + "/" + pat + rest == d1 + "/" + (pat + rest);
    PartsOfPath(d2, rep + rest);
    assert base + "/" + rep + "/" + sub + "/" + rep + rest == d2 + "/" + (rep + rest);
    MiddleDiffers(base + "/", pat, rep, "/" + sub);
    assert d1 == (base + "/") + pat + ("/" + sub);
    assert d2 == (base + "/") + rep + ("/" + sub);
  }

  /** Strings that share a head and a tail are equal only when their middles are. */
  lemma MiddleDiffers(a: string, x: string, y: string, b: string)
    requires x != y
    ensures a + x + b != a + y + b
  {
    var s, t := a + x + b, a + y + b;
    assert s[|a|..|a| + |x|] == x;
    assert t[|a|..|a| + |y|] == y;
  }

  /** Both the directory named `pat` and the file name's `pat` are replaced. */
  lemma ReplaceBothOccurrences(base: string, sub: string, rest: string, pat: string, rep: string)
    requires |pat| > 0 && '/' !in pat
    requires !Contains(base, pat) && !Contains(sub, pat) && !Contains(rest, pat)
    ensures Replace(base + "/" + pat + "/" + sub + "/" + pat + rest, pat, rep)
         == base + "/" + rep + "/" + sub + "/" + rep + rest
  {
    // the text before and between the occurrences holds none and ends in `/`
    SlashEnded(base, pat);
    SlashEnded(sub, pat);
    SlashStarted(sub + "/", pat);
    Regroup(base, sub, pat, rest);
    Regroup(base, sub, rep, rest);
    ReplaceChain(base + "/", "/" + (sub + "/"), rest, pat, rep);
  }

  /** The path `<base>/<x>/<sub>/<x><rest>` as the pieces `Replace` walks through. */
  lemma Regroup(base: string, sub: string, x: string, rest: string)
    ensures base + "/" + x + "/" + sub + "/" + x + rest
         == (base + "/") + (x + (("/" + (sub + "/")) + (x + rest)))
  {
    assert "/" + sub + "/" == "/" + (sub + "/");
  }

  lemma ReplaceChain(lead: string, mid: string, rest: string, pat: string, rep: string)
    requires |pat| > 0
    requires !Contains(lead, pat) && |lead| > 0 && lead[|lead| - 1] !in pat
    requires !Contains(mid, pat) && |mid| > 0 && mid[|mid| - 1] !in pat
    requires !Contains(rest, pat)
    ensures Replace(lead + (pat + (mid + (pat + rest))), pat, rep) == lead + (rep + (mid + (rep + rest)))
  {
    var a := pat + rest;
    ReplaceAbsent(rest, pat, rep);
    ReplaceHit(rest, pat, rep);
    var b := mid + a;
    ReplaceSkips(mid, a, pat, rep);
    var c := pat + b;
    ReplaceHit(b, pat, rep);
    ReplaceSkips(lead, c, pat, rep);
  }

  lemma SlashEnded(x: string, pat: string)
    requires |pat| > 0 && '/' !in pat && !Contains(x, pat)
    ensures !Contains(x + "/", pat) && (x + "/")[|x|] !in pat
  {
    NoOccurrenceAround(x, "", pat);
    assert x + "/" + "" == x + "/";
  }

  lemma SlashStarted(x: string, pat: string)
    requires |pat| > 0 && '/' !in pat && !Contains(x, pat)
    ensures !Contains("/" + x, pat)
  {
    NoOccurrenceAround("", x, pat);
    assert "" + "/" + x == "/" + x;
  }

  /** `x + "/" + y` holds no occurrence of a pattern without `/` that neither `x` nor `y` holds. */
  lemma NoOccurrenceAround(x: string, y: string, pat: string)
    requires |pat| > 0 && '/' !in pat
    requires !Contains(x, pat) && !Contains(y, pat)
    ensures !Contains(x + "/" + y, pat)
  {
    if Contains(x + "/" + y, pat) {
      ContainsAround(x, '/', y, pat);
    }
  }

  /** One step of `Replace` over an occurrence of the pattern. */
  lemma ReplaceHit(rest: string, pat: string, rep: string)
    requires |pat| > 0
    ensures Replace(pat + rest, pat, rep) == rep + Replace(rest, pat, rep)
  {
    var s := pat + rest;
    assert s[..|pat|] == pat && s[|pat|..] == rest;
  }

  /**
   * Where an output of tedana is moved, as intended: nowhere when its name
   * already holds the prefix, otherwise to the same directory under its
   * name with every "tedana" replaced by the prefix.
   */
  function RenameTarget(path: string, prefix: string): Option<string> {
    if Contains(Basename(path), prefix) then None
    else Some(WithBasename(path, Replace(Basename(path), Tool, prefix)))
  }

  /**
   * A prefix without `/` (as every run prefix is) moves an output within its
   * own directory, and a name that mentioned "tedana" then holds the prefix.
   */
  lemma RenameTargetStaysInDir(path: string, prefix: string)
    requires '/' !in prefix
    ensures RenameTarget(path, prefix).None? <==> Contains(Basename(path), prefix)
    ensures RenameTarget(path, prefix).Some? ==>
      var t := RenameTarget(path, prefix).value;
      && DirPart(t) == DirPart(path)
      && Basename(t) == Replace(Basename(path), Tool, prefix)
      && (Contains(Basename(path), Tool) ==> Contains(Basename(t), prefix))
  {
    var name := Basename(path);
    BasenameHasNoSlash(path);
    ReplaceKeepsCharOut(name, Tool, prefix, '/');
    WithBasenameKeepsDir(path, Replace(name, Tool, prefix));
    if Contains(name, Tool) {
      ReplacePresent(name, Tool, prefix);
    }
  }

  /** main.py's rule as a function of the output's path. */
  function AsWritten(prefix: string): string -> Option<string> {
    p => RenameTargetAsWritten(p, prefix)
  }

  /** The intended rule as a function of the output's path. */
  function Intended(prefix: string): string -> Option<string> {
    p => RenameTarget(p, prefix)
  }

  /**
   * The moves a rename loop makes under the rule `target`, in listing
   * order: one for every output that has a target, none for the others.
   */
  function Moves(outputs: seq<string>, target: string -> Option<string>): seq<(string, string)>
    decreases |outputs|
  {
    if |outputs| == 0 then []
    else
      var last := outputs[|outputs| - 1];
      Moves(outputs[..|outputs| - 1], target)
      + (if target(last).Some? then [(last, target(last).value)] else [])
  }

  /** The moves of a listing are those of its first part followed by those of the rest. */
  lemma {:induction false} MovesConcat(xs: seq<string>, ys: seq<string>, target: string -> Option<string>)
    ensures Moves(xs + ys, target) == Moves(xs, target) + Moves(ys, target)
    decreases |ys|
  {
    if |ys| == 0 {
      assert xs + ys == xs;
    } else {
      var init := ys[..|ys| - 1];
      MovesConcat(xs, init, target);
      assert (xs + ys)[..|xs + ys| - 1] == xs + init;
    }
  }

  /** A move is exactly an output paired with its target. */
  lemma {:induction false} MovesMembers(outputs: seq<string>, target: string -> Option<string>)
    ensures forall m :: m in Moves(outputs, target) <==> m.0 in outputs && target(m.0) == Some(m.1)
    decreases |outputs|
  {
    if |outputs| > 0 {
      var init := outputs[..|outputs| - 1];
      MovesMembers(init, target);
      assert outputs == init + [outputs[|outputs| - 1]];
    }
  }

  /** Under the intended rule every move stays in its directory and renames only the file. */
  lemma IntendedMovesStayInDir(outputs: seq<string>, prefix: string)
    requires '/' !in prefix
    ensures forall m :: m in Moves(outputs, Intended(prefix)) ==>
      && m.0 in outputs
      && DirPart(m.1) == DirPart(m.0)
      && Basename(m.1) == Replace(Basename(m.0), Tool, prefix)
  {
    MovesMembers(outputs, Intended(prefix));
    forall m | m in Moves(outputs, Intended(prefix))
      ensures DirPart(m.1) == DirPart(m.0) && Basename(m.1) == Replace(Basename(m.0), Tool, prefix)
    {
      RenameTargetStaysInDir(m.0, prefix);
    }
  }

  /**
   * The rename loop of `run_fmriprep_pipe` over the outputs the `ls` search
   * found: one move per output not already named with the prefix, in
   * listing order, to the path with every "tedana" replaced.
   */
  method RenameOutputs(outputs: seq<string>, prefix: string) returns (moves: seq<(string, string)>)
    ensures moves == Moves(outputs, AsWritten(prefix))
  {
    moves := [];
    for i := 0 to |outputs|
      invariant moves == Moves(outputs[..i], AsWritten(prefix))
    {
      var f := outputs[i];
      assert outputs[..i + 1][..i] == outputs[..i];
      if Contains(Basename(f), prefix) {
        continue;
      }
      moves := moves + [(f, Replace(f, Tool, prefix))];
    }
    assert outputs[..|outputs|] == outputs;
  }

  /** The session archive's base name: "tedana_", the session label, "_", the destination id. */
  function SessionArchiveName(sesid: string, destId: string): string {
    "tedana_" + sesid + "_" + destId
  }

  /** Where `zip -r` writes the session archive: the base name plus ".zip", under the output directory. */
  function SessionArchivePath(outputDir: string, sesid: string, destId: string): string {
    PathJoin(outputDir, SessionArchiveName(sesid, destId)) + ".zip"
  }

  /**
   * The archive sits directly in the output directory, and its name gives
   * back the session label and the destination id when neither holds `_`.
   */
  lemma SessionArchiveFields(outputDir: string, sesid: string, destId: string)
    requires '/' !in sesid && '/' !in destId
    ensures Basename(SessionArchivePath(outputDir, sesid, destId)) == SessionArchiveName(sesid, destId) + ".zip"
    ensures '_' !in sesid && '_' !in destId ==>
      Split(SessionArchiveName(sesid, destId), '_') == ["tedana", sesid, destId]
  {
    var name := SessionArchiveName(sesid, destId);
    JoinThenAppend(outputDir, name, ".zip");
    assert '/' !in name + ".zip";
    JoinBasename(outputDir, name + ".zip");
    if '_' !in sesid && '_' !in destId {
      var parts := ["tedana", sesid, destId];
      assert parts[1..] == [sesid, destId] && parts[1..][1..] == [destId];
      assert Join([sesid, destId], "_") == sesid + "_" + destId;
      assert Join(parts, "_") == "tedana" + "_" + (sesid + "_" + destId);
      assert Join(parts, "_") == name;
      SplitJoin(parts, '_');
    }
  }

  // ---------------------------------------------------------------------
  // generate_command

  /** The option whose text is passed to tedana as it stands. */
  const CommandLineArgs := "command-line-args"

  /** The app options, in the dictionary's insertion order. */
  type Options = seq<(string, Value)>

  /** A dictionary holds each key once. */
  predicate DistinctKeys(opts: Options) {
    forall i, j :: 0 <= i < j < |opts| ==> opts[i].0 != opts[j].0
  }

  /** `skip_pattern.match(key)`: the key starts with a gear or scheduler prefix. */
  predicate Skipped(key: string) {
    StartsWith(key, "gear-") || StartsWith(key, "lsf-") || StartsWith(key, "slurm-") || StartsWith(key, "singularity-")
  }

  /** The first branch of the loop: a truthy `command-line-args`. */
  predicate PassedThrough(key: string, val: Value) {
    key == CommandLineArgs && Truthy(val)
  }

  /** `command_parameters`: the options neither passed through nor skipped, in order. */
  function CommandParameters(opts: Options): seq<(string, Value)> {
    if |opts| == 0 then []
    else
      var last := opts[|opts| - 1];
      var ps := CommandParameters(opts[..|opts| - 1]);
      if !PassedThrough(last.0, last.1) && !Skipped(last.0) then ps + [last] else ps
  }

  /**
   * The words appended to the command by the first branch: the text of a
   * truthy `command-line-args` split at every space. A truthy value that
   * is not text has no `split` and raises.
   */
  function PassedArguments(opts: Options): Result<seq<string>> {
    if |opts| == 0 then Ok([])
    else
      var last := opts[|opts| - 1];
      var prev := PassedArguments(opts[..|opts| - 1]);
      if prev.Err? || !PassedThrough(last.0, last.1) then prev
      else if last.1.Str? then Ok(prev.value + Split(last.1.s, ' '))
      else Err(NotText(CommandLineArgs))
  }

  /**
   * `generate_command`: the common command, then the passed-through words,
   * handed with the remaining parameters to `build_command_list`, which is
   * a parameter here.
   */
  method GenerateCommand(commonCommand: string, opts: Options,
                         build: (seq<string>, seq<(string, Value)>) -> seq<string>)
    returns (r: Result<seq<string>>)
    ensures PassedArguments(opts).Err? ==> r == Err(PassedArguments(opts).error)
    ensures PassedArguments(opts).Ok? ==>
      r == Ok(build([commonCommand] + PassedArguments(opts).value, CommandParameters(opts)))
  {
    var cmd := [commonCommand];
    var params: seq<(string, Value)> := [];
    assert opts[..0] == [] && cmd[1..] == [];
    for i := 0 to |opts|
      invariant |cmd| >= 1 && cmd[0] == commonCommand
      invariant PassedArguments(opts[..i]) == Ok(cmd[1..])
      invariant params == CommandParameters(opts[..i])
    {
      var (key, val) := opts[i];
      assert opts[..i + 1][..i] == opts[..i];
      if PassedThrough(key, val) {
        if !val.Str? {
          assert PassedArguments(opts[..i + 1]) == Err(NotText(CommandLineArgs));
          PrefixError(opts, i + 1);
          return Err(NotText(CommandLineArgs));
        }
        var words, before := Split(val.s, ' '), cmd;
        for j := 0 to |words|
          invariant cmd == before + words[..j]
        {
          cmd := cmd + [words[j]];
          assert words[..j + 1] == words[..j] + [words[j]];
        }
        assert words[..|words|] == words;
        assert cmd[1..] == before[1..] + words;
      } else if !Skipped(key) {
        params := params + [(key, val)];
      }
    }
    assert opts[..|opts|] == opts;
    assert cmd == [commonCommand] + cmd[1..];
    r := Ok(build(cmd, params));
  }

  /** Once the words of a prefix raise, so do those of the whole. */
  lemma {:induction false} PrefixError(opts: Options, i: nat)
    requires i <= |opts| && PassedArguments(opts[..i]).Err?
    ensures PassedArguments(opts) == PassedArguments(opts[..i])
    decreases |opts| - i
  {
    if i < |opts| {
      assert opts[..i + 1][..i] == opts[..i];
      PrefixError(opts, i + 1);
    } else {
      assert opts[..i] == opts;
    }
  }

  /** An option is a parameter of the command exactly when it is neither passed through nor skipped. */
  lemma {:induction false} CommandParametersMembers(opts: Options)
    ensures forall k, v :: (k, v) in CommandParameters(opts) <==>
      (k, v) in opts && !PassedThrough(k, v) && !Skipped(k)
  {
    if |opts| > 0 {
      var init := opts[..|opts| - 1];
      CommandParametersMembers(init);
      assert opts == init + [opts[|opts| - 1]];
    }
  }

  /** A falsy `command-line-args` is not passed through but handed on as a parameter. */
  lemma FalsyArgsBecomeParameter(opts: Options, v: Value)
    requires (CommandLineArgs, v) in opts && !Truthy(v)
    ensures (CommandLineArgs, v) in CommandParameters(opts)
  {
    CommandParametersMembers(opts);
    assert !Skipped(CommandLineArgs) by {
      assert CommandLineArgs[0] == 'c';
    }
  }

  /** Without a truthy `command-line-args`, nothing is passed through. */
  lemma {:induction false} NoArguments(opts: Options)
    requires forall i :: 0 <= i < |opts| ==> !PassedThrough(opts[i].0, opts[i].1)
    ensures PassedArguments(opts) == Ok([])
  {
    if |opts| > 0 {
      NoArguments(opts[..|opts| - 1]);
    }
  }

  /** With a truthy textual `command-line-args`, exactly its space-separated words are passed through. */
  lemma {:induction false} ArgumentsOfEntry(opts: Options, i: nat)
    requires DistinctKeys(opts)
    requires i < |opts| && PassedThrough(opts[i].0, opts[i].1) && opts[i].1.Str?
    ensures PassedArguments(opts) == Ok(Split(opts[i].1.s, ' '))
  {
    var init := opts[..|opts| - 1];
    if i == |opts| - 1 {
      NoArguments(init);
      assert [] + Split(opts[i].1.s, ' ') == Split(opts[i].1.s, ' ');
    } else {
      ArgumentsOfEntry(init, i);
    }
  }

  /** Building the words raises exactly when some truthy `command-line-args` is not text. */
  lemma {:induction false} ArgumentsError(opts: Options)
    ensures PassedArguments(opts).Err? <==>
      exists i :: 0 <= i < |opts| && PassedThrough(opts[i].0, opts[i].1) && !opts[i].1.Str?
  {
    if |opts| > 0 {
      var init := opts[..|opts| - 1];
      ArgumentsError(init);
      if exists i :: 0 <= i < |init| && PassedThrough(init[i].0, init[i].1) && !init[i].1.Str? {
        var i :| 0 <= i < |init| && PassedThrough(init[i].0, init[i].1) && !init[i].1.Str?;
        assert opts[i] == init[i];
      }
      if exists i :: 0 <= i < |opts| && PassedThrough(opts[i].0, opts[i].1) && !opts[i].1.Str? {
        var i :| 0 <= i < |opts| && PassedThrough(opts[i].0, opts[i].1) && !opts[i].1.Str?;
        if i < |init| {
          assert init[i] == opts[i];
        }
      }
    }
  }
}
