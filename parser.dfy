/**
 * `parse_config` of fw_gear_tedana/parser.py: the gear options and the app
 * options built from the platform context, including the decision between
 * the fmriprep-archive input and manually supplied echo files.
 * The context (config values, paths, inputs, the archive's entry names and
 * the subject and session labels the SDK client returns) is given as
 * values; unzipping the archive and logging are not modelled.
 */
module Parser {
  import opened Text
  import opened Paths
  import opened Values

  /** What `parse_config` reads from the gear context. */
  datatype Context = Context(
    config: map<string, Value>,     // `gear_context.config`
    outputDir: string,              // `gear_context.output_dir`
    destinationId: string,          // `gear_context.destination["id"]`
    workDir: string,                // `gear_context.work_dir`
    inputs: map<string, string>,    // the input paths `get_input_path` finds
    zipEntries: seq<string>,        // `namelist()` of the fmriprep archive
    subjectLabel: string,           // the label of the destination's subject
    sessionLabel: string)           // the label of the destination's session

  /** The outcome: both dictionaries, and whether the input mismatch was logged as an error. */
  datatype Parsed = Parsed(gear: map<string, Value>, app: map<string, Value>, errorLogged: bool)

  /** `get_input_path(name)` is truthy: the input is given, with a non-empty path. */
  predicate HasInput(ctx: Context, name: string) {
    name in ctx.inputs && ctx.inputs[name] != ""
  }

  /** The input is an fmriprep archive. */
  predicate FmriprepInput(ctx: Context) {
    HasInput(ctx, "fmriprep_zip") && !HasInput(ctx, "fmri_echo_1")
  }

  /** The input is a set of echo files. */
  predicate ManualInput(ctx: Context) {
    HasInput(ctx, "fmri_echo_1") && !HasInput(ctx, "fmriprep_zip")
  }

  /** The config keys copied into the app options. */
  const AppOptionKeys: set<string> := {"echo-times", "output-layout", "explicit-mask", "command-line-args"}

  /** The analysis id: the first `/`-component of an archive entry's name. */
  function AnalysisId(entry: string): string {
    Split(entry, '/')[0]
  }

  /** The analysis id is the top directory of the entry: a `/`-free prefix, followed by `/` when there is one. */
  lemma AnalysisIdOfEntry(entry: string)
    ensures AnalysisId(entry) <= entry
    ensures '/' !in AnalysisId(entry)
    ensures '/' in entry ==> AnalysisId(entry) + "/" <= entry
    ensures '/' !in entry ==> AnalysisId(entry) == entry
  {
    SplitPiecesFree(entry, '/');
    JoinSplit(entry, '/');
    var parts := Split(entry, '/');
    if '/' in entry {
      if |parts| == 1 {
        assert false;
      }
      JoinPrefix(parts, 1, "/");
      assert parts[..1] == [parts[0]];
    } else {
      SplitFree(entry, '/');
    }
  }

  /** `gear_options["tedana"]`: the command tedana is run with, and no parameters. */
  function ToolOptions(): Value {
    Dict(map["common_command" := Str("tedana"), "params" := Str("")])
  }

  /** `gear_options["tedana"]["common_command"]` */
  function CommonCommand(gear: map<string, Value>): Option<string> {
    if "tedana" in gear && gear["tedana"].Dict? && "common_command" in gear["tedana"].entries
       && gear["tedana"].entries["common_command"].Str?
    then Some(gear["tedana"].entries["common_command"].s)
    else None
  }

  /**
   * `parse_config`. It fails only when the fmriprep archive lists no entry
   * (the first entry's name is indexed); a mismatch of inputs is logged
   * and parsing carries on. The app options read only the gear's
   * "work-dir", which is the context's work directory, so the two
   * dictionaries are built one after the other here rather than interleaved.
   */
  method ParseConfig(ctx: Context) returns (r: Result<Parsed>)
    ensures r.Err? <==> FmriprepInput(ctx) && |ctx.zipEntries| == 0
    ensures r.Err? ==> r.error == EmptyArchive
    ensures r.Ok? ==> AppPromises(ctx, r.value.app, r.value.errorLogged) && GearPromises(ctx, r.value.gear)
  {
    var gear := GearOptions(ctx);
    if gear.Err? {
      return Err(gear.error);
    }
    var app, logged := AppOptions(ctx);
    r := Ok(Parsed(gear.value, app, logged));
  }

  /**
   * The app options: the four config values, the work directory when
   * there is one, the input type when the inputs decide it, and the
   * subject and session labels.
   */
  predicate AppPromises(ctx: Context, app: map<string, Value>, errorLogged: bool) {
    && (("inputtype" in app && app["inputtype"] == Str("fmriprep")) <==> FmriprepInput(ctx))
    && (("inputtype" in app && app["inputtype"] == Str("manual")) <==> ManualInput(ctx))
    && ("inputtype" !in app <==> errorLogged)
    && (errorLogged <==> HasInput(ctx, "fmriprep_zip") == HasInput(ctx, "fmri_echo_1"))
    && app.Keys == AppOptionKeys + {"sid", "sesid"}
         + (if ctx.workDir != "" then {"work-dir"} else {})
         + (if errorLogged then {} else {"inputtype"})
    && (forall k :: k in AppOptionKeys ==> app[k] == Get(ctx.config, k))
    && (ctx.workDir != "" ==> app["work-dir"] == Str(ctx.workDir))
    && app["sid"] == Str(ctx.subjectLabel) && app["sesid"] == Str(ctx.sessionLabel)
  }

  /**
   * The gear options: the entries every run has, the archive and the
   * pipeline directory only for fmriprep input, the echo files only for
   * manual input and only when given, and the tool's common command.
   */
  predicate GearPromises(ctx: Context, gear: map<string, Value>)
    requires FmriprepInput(ctx) ==> |ctx.zipEntries| > 0
  {
    && InputPromises(ctx, gear)
    && "tedana" in gear && gear["tedana"] == ToolOptions()
    && CommonCommand(gear) == Some("tedana")
  }

  /** Every key `parse_config` may set in the gear options. */
  const GearKeys: set<string> := {"dry-run", "output-dir", "destination-id", "work-dir", "client", "environ",
    "debug", "output_analysis_id_dir", "fmriprep_zipfile", "fmriprep-dir", "fmri_echo_1_file",
    "fmri_echo_2_file", "fmri_echo_3_file", "tedana"}

  /** No key outside `GearKeys` is set. */
  predicate OnlyGearKeys(gear: map<string, Value>) {
    forall k :: k in gear ==> k in GearKeys
  }

  /** Everything but the tool's entry. */
  predicate InputPromises(ctx: Context, gear: map<string, Value>)
    requires FmriprepInput(ctx) ==> |ctx.zipEntries| > 0
  {
    && GearBase(ctx, gear)
    && OnlyGearKeys(gear)
    && ("fmriprep_zipfile" in gear <==> FmriprepInput(ctx))
    && ("fmriprep-dir" in gear <==> FmriprepInput(ctx))
    && (FmriprepInput(ctx) ==>
          && gear["fmriprep_zipfile"] == Str(ctx.inputs["fmriprep_zip"])
          && gear["fmriprep-dir"] == Str(PathJoin(PathJoin(ctx.workDir, AnalysisId(ctx.zipEntries[0])), "fmriprep")))
    && EchoFile(ctx, gear, "fmri_echo_1", "fmri_echo_1_file")
    && EchoFile(ctx, gear, "fmri_echo_2", "fmri_echo_2_file")
    && EchoFile(ctx, gear, "fmri_echo_3", "fmri_echo_3_file")
  }

  /**
   * The entries set before the inputs are looked at: the config's dry-run
   * and debug flags, the context's directories and destination, the client
   * and environment, and the analysis output directory
   * `<output-dir>/<destination>`.
   */
  predicate GearBase(ctx: Context, gear: map<string, Value>) {
    && "dry-run" in gear && gear["dry-run"] == Get(ctx.config, "gear-dry-run")
    && "output-dir" in gear && gear["output-dir"] == Str(ctx.outputDir)
    && "destination-id" in gear && gear["destination-id"] == Str(ctx.destinationId)
    && "work-dir" in gear && gear["work-dir"] == Str(ctx.workDir)
    && "client" in gear && "environ" in gear
    && "debug" in gear && gear["debug"] == Get(ctx.config, "debug")
    && "output_analysis_id_dir" in gear
    && gear["output_analysis_id_dir"] == Str(PathJoin(ctx.outputDir, ctx.destinationId))
  }

  /** The echo file `key` is set, to the path of the input `name`, exactly for manual input that gives it. */
  predicate EchoFile(ctx: Context, gear: map<string, Value>, name: string, key: string) {
    && (key in gear <==> ManualInput(ctx) && HasInput(ctx, name))
    && (key in gear && HasInput(ctx, name) ==> gear[key] == Str(ctx.inputs[name]))
  }

  /** The app-option assignments of `parse_config`, in order. */
  method AppOptions(ctx: Context) returns (app: map<string, Value>, logged: bool)
    ensures AppPromises(ctx, app, logged)
  {
    app := map k | k in AppOptionKeys :: Get(ctx.config, k);
    if ctx.workDir != "" {
      app := app["work-dir" := Str(ctx.workDir)];
    }
    logged := false;
    if HasInput(ctx, "fmriprep_zip") && !HasInput(ctx, "fmri_echo_1") {
      app := app["inputtype" := Str("fmriprep")];
    } else if HasInput(ctx, "fmri_echo_1") && !HasInput(ctx, "fmriprep_zip") {
      app := app["inputtype" := Str("manual")];
    } else {
      logged := true;
    }
    app := app["sid" := Str(ctx.subjectLabel)];
    app := app["sesid" := Str(ctx.sessionLabel)];
  }

  /** The gear-option assignments of `parse_config`, in order; indexing an empty archive listing fails. */
  method GearOptions(ctx: Context) returns (r: Result<map<string, Value>>)
    ensures r.Err? <==> FmriprepInput(ctx) && |ctx.zipEntries| == 0
    ensures r.Err? ==> r.error == EmptyArchive
    ensures r.Ok? ==> GearPromises(ctx, r.value)
  {
    var gear := BaseOptions(ctx);
    r := InputOptions(ctx, gear);
    if r.Ok? {
      gear := r.value;
      ToolCommand(gear);
      ToolKeepsInputs(ctx, gear);
      gear := gear["tedana" := ToolOptions()];
      r := Ok(gear);
    }
  }

  /** None of the entries the input decision or the tool's options add is set yet. */
  predicate NoLaterKeys(gear: map<string, Value>) {
    && "fmriprep_zipfile" !in gear && "fmriprep-dir" !in gear
    && "fmri_echo_1_file" !in gear && "fmri_echo_2_file" !in gear && "fmri_echo_3_file" !in gear
    && "tedana" !in gear
  }

  /** The first gear-option assignments: the dictionary literal and the analysis output directory. */
  method BaseOptions(ctx: Context) returns (gear: map<string, Value>)
    ensures GearBase(ctx, gear) && NoLaterKeys(gear) && OnlyGearKeys(gear)
  {
    gear := map[
      "dry-run" := Get(ctx.config, "gear-dry-run"),
      "output-dir" := Str(ctx.outputDir),
      "destination-id" := Str(ctx.destinationId),
      "work-dir" := Str(ctx.workDir),
      "client" := Opaque,
      "environ" := Opaque,
      "debug" := Get(ctx.config, "debug")];
    gear := gear["output_analysis_id_dir" := Str(PathJoin(ctx.outputDir, ctx.destinationId))];
  }

  /** The entries of the input decision: the archive and pipeline directory, or the echo files. */
  method InputOptions(ctx: Context, base: map<string, Value>) returns (r: Result<map<string, Value>>)
    requires GearBase(ctx, base) && NoLaterKeys(base) && OnlyGearKeys(base)
    ensures r.Err? <==> FmriprepInput(ctx) && |ctx.zipEntries| == 0
    ensures r.Err? ==> r.error == EmptyArchive
    ensures r.Ok? ==> InputPromises(ctx, r.value) && "tedana" !in r.value
  {
    var gear := base;
    if HasInput(ctx, "fmriprep_zip") && !HasInput(ctx, "fmri_echo_1") {
      gear := gear["fmriprep_zipfile" := Str(ctx.inputs["fmriprep_zip"])];
      if |ctx.zipEntries| == 0 {
        return Err(EmptyArchive);
      }
      var id := AnalysisId(ctx.zipEntries[0]);
      gear := gear["fmriprep-dir" := Str(PathJoin(PathJoin(ctx.workDir, id), "fmriprep"))];
    } else if HasInput(ctx, "fmri_echo_1") && !HasInput(ctx, "fmriprep_zip") {
      gear := EchoOptions(ctx, gear);
    }
    r := Ok(gear);
  }

  /** The echo files of manual input: the first always, the second and third when given. */
  method EchoOptions(ctx: Context, base: map<string, Value>) returns (gear: map<string, Value>)
    requires ManualInput(ctx)
    requires GearBase(ctx, base) && NoLaterKeys(base) && OnlyGearKeys(base)
    ensures InputPromises(ctx, gear) && "tedana" !in gear
  {
    gear := base["fmri_echo_1_file" := Str(ctx.inputs["fmri_echo_1"])];
    if HasInput(ctx, "fmri_echo_2") {
      gear := gear["fmri_echo_2_file" := Str(ctx.inputs["fmri_echo_2"])];
    }
    if HasInput(ctx, "fmri_echo_3") {
      gear := gear["fmri_echo_3_file" := Str(ctx.inputs["fmri_echo_3"])];
    }
  }

  /** Adding the tool's entry keeps everything the input decision set. */
  lemma ToolKeepsInputs(ctx: Context, gear: map<string, Value>)
    requires FmriprepInput(ctx) ==> |ctx.zipEntries| > 0
    requires InputPromises(ctx, gear) && "tedana" !in gear
    ensures InputPromises(ctx, gear["tedana" := ToolOptions()])
  {
  }

  /** Setting the tool's options makes `tedana` the common command. */
  lemma ToolCommand(gear: map<string, Value>)
    ensures CommonCommand(gear["tedana" := ToolOptions()]) == Some("tedana")
  {
    var t := ToolOptions();
    assert t.Dict? && t.entries["common_command"] == Str("tedana");
  }

  /** The unpacked pipeline's directory: `fmriprep` inside the analysis directory of the work directory. */
  lemma FmriprepDirShape(workDir: string, entry: string)
    ensures Basename(PathJoin(PathJoin(workDir, AnalysisId(entry)), "fmriprep")) == "fmriprep"
    ensures Contains(PathJoin(PathJoin(workDir, AnalysisId(entry)), "fmriprep"), AnalysisId(entry))
  {
    AnalysisIdOfEntry(entry);
    var id := AnalysisId(entry);
    assert '/' !in "fmriprep";
    JoinBasename(PathJoin(workDir, id), "fmriprep");
    PrefixContains(id, "");
    assert id + "" == id;
    JoinAddsContains(workDir, id, id);
    JoinKeepsContains(PathJoin(workDir, id), "fmriprep", id);
  }
}
