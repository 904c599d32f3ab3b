# fw-tedana: a Dafny model of the gear's core

The fw-tedana gear runs the `tedana` multi-echo denoising tool on the
output of an fMRIPrep analysis. This project models, in Dafny, the parts of
the gear that decide what is run and where its results go:

- **Parsing the configuration** (`Parser`, from `fw_gear_tedana/parser.py`).
  `parse_config` builds the gear options and the app options from the
  platform context. It decides between the fmriprep-archive input and
  manually supplied echo files. It also takes the analysis id from the
  archive's first entry and sets up the `tedana` common command.
- **The fmriprep pipeline** (`GearMain`, from `fw_gear_tedana/main.py`):
  - task labels and run prefixes derived from file names;
  - the rule that skips a task whose echo search found nothing;
  - the parsing of `ls` output in `searchfiles`;
  - the explicit mask pattern;
  - the output directory;
  - the renaming of tedana's outputs with the run prefix;
  - the session archive's name;
  - `generate_command`, up to the opaque `build_command_list`.
- **The HTML reports** (`ZipHtmls`, from `utils/zip_htmls.py`):
  - the names of the report archives and flattened reports;
  - the `zip` argument list with every `figures` directory;
  - the bookkeeping that sets `index.html` aside and restores it, modelled as
    a `ReportDir` class whose fields the operations update;
  - `flatten_image_refs`, which inlines every figure as a base64 data URI.
- **Base 64** (`Base64`): the encoding of RFC 4648, section 4, that
  `flatten_image_refs` uses, with its decoder and the round trip.

Python's string operations (`split`, `join`, `replace`, `strip`, `in`) are
modelled once in `Text`. `os.path.join`, the base name and the directory part
are in `Paths`. The dynamically typed option values, their truthiness and the
error results that stand for raised exceptions are in `Values`.

Everything the gear gets from outside is a parameter of the model:

- the output of `ls`;
- the entries of `os.walk`;
- the text of files;
- the bytes of figures;
- the clock;
- the names in the fmriprep archive;
- the labels the SDK client returns;
- the function `build_command_list`.

## Model

| member | source | states |
|---|---|---|
| GearMain.SegmentsOfName | fw_gear_tedana/main.py:213-215 | The `_`-segments of a file's base name join back to the base name, and no segment holds `/`. |
| GearMain.FirstMatchIsFirst | fw_gear_tedana/main.py:213-214 | The index found is that of the first segment mentioning the key. None is found exactly when no segment mentions it. |
| GearMain.TaskLabelSegments | fw_gear_tedana/main.py:213-215 | A task label consists exactly of the segments from the first "task" segment up to the first "echo" segment. It is empty when the echo segment comes first. |
| GearMain.TaskLabelDefined | fw_gear_tedana/main.py:213-214 | A file has a task label exactly when its name mentions both "task" and "echo". Otherwise indexing the empty match list raises. |
| GearMain.RunPrefixOfName | fw_gear_tedana/main.py:127-128 | An echo file's run prefix exists. It starts the file name, holds no `/`, and is exactly the segments before the first "echo" segment. |
| GearMain.ListingRoundTrip | fw_gear_tedana/main.py:304 | Parsing `ls` output gives back exactly the names printed, so a search that found files is never skipped. |
| GearMain.EmptyListing | fw_gear_tedana/main.py:304 | A search that found nothing parses to `[""]`. An echo search that found nothing is then skipped, and a bold search that found nothing makes the search for tasks fail. |
| GearMain.FmriprepGetTasks | fw_gear_tedana/main.py:210-219 | Succeeds iff every bold file has a label. The result is then exactly the set of labels, each once. Otherwise it fails with the first file's error. |
| GearMain.ExplicitMaskLookupFails | fw_gear_tedana/main.py:130-131 | No app options that `parse_config` returns hold "prefix", so the mask lookup as written fails with a missing key. |
| GearMain.ExplicitMaskOfRun | fw_gear_tedana/main.py:127-131 | Built from the run prefix, every echo file has a mask pattern: its own run prefix plus `_desc-brain_mask.nii.gz`. |
| GearMain.BidsOutputDirMentionsTool | fw_gear_tedana/main.py:135-138 | With the "bids" layout, the output directory contains "tedana". |
| GearMain.BidsOutputDirShape | fw_gear_tedana/main.py:135-138 | The "bids" directory is `<work-dir>/<destination>/fmriprep/derivatives`, then `/tedana/`, then `sub-<id>/ses-<id>/func`. |
| GearMain.BidsBaseFree | fw_gear_tedana/main.py:136 | The `derivatives` part holds "tedana" only when the work directory or the destination id does. |
| GearMain.SessionFuncFree | fw_gear_tedana/main.py:137-138 | The `sub-<id>/ses-<id>/func` part holds "tedana" only when a label does. |
| GearMain.BidsRenameLeavesDir | fw_gear_tedana/main.py:135-173 | Take a bids-layout output `<dir>/tedana<rest>`, where no label or directory holds "tedana". The rename as written moves it out of `<dir>`. |
| GearMain.RenameKeepsDir | fw_gear_tedana/main.py:169-173 | The intended rename moves every output `<dir>/tedana<rest>` within `<dir>`. |
| GearMain.RenameAsWrittenChangesDir | fw_gear_tedana/main.py:168-173 | Replacing "tedana" in the whole path moves a bids-layout output into a different directory: `derivatives/<prefix>`. |
| GearMain.RenameTargetStaysInDir | fw_gear_tedana/main.py:169-173 | A file already named with the prefix is not moved. Otherwise it stays in its directory, "tedana" is replaced in its name, and that name then holds the prefix. |
| GearMain.RenameOutputs | fw_gear_tedana/main.py:168-173 | There is one move per output whose name lacks the prefix, in listing order. Each move goes to the path with every "tedana" replaced, as line 173 writes it. |
| GearMain.MovesConcat | fw_gear_tedana/main.py:169-173 | The moves of a listing are the moves of its first part followed by those of the rest. So each output is handled once, in order. |
| GearMain.MovesMembers | fw_gear_tedana/main.py:169-173 | A move is exactly a listed output paired with the target its rule gives it. |
| GearMain.IntendedMovesStayInDir | fw_gear_tedana/main.py:169-173 | Under the intended rule every move keeps the output's directory and replaces "tedana" in the name only. |
| GearMain.SessionArchiveFields | fw_gear_tedana/main.py:180-181 | The session archive sits directly in the output directory. When the labels hold no `_`, its name splits back into "tedana", the session label and the destination id. |
| GearMain.GenerateCommand | fw_gear_tedana/main.py:244-267 | The command starts with the common command, followed by the passed-through words. The other options, minus the skipped ones, go to `build_command_list`. A non-text truthy `command-line-args` raises. |
| GearMain.CommandParametersMembers | fw_gear_tedana/main.py:247-260 | An option is a command parameter exactly when it is neither a truthy `command-line-args` nor a `gear-`/`lsf-`/`slurm-`/`singularity-` key. |
| GearMain.FalsyArgsBecomeParameter | fw_gear_tedana/main.py:253-260 | A falsy `command-line-args` is handed on as a parameter. |
| GearMain.ArgumentsOfEntry | fw_gear_tedana/main.py:253-257 | A truthy textual `command-line-args` contributes exactly its space-separated words. |
| GearMain.NoArguments | fw_gear_tedana/main.py:253-257 | Without a truthy `command-line-args`, no words are passed through. |
| GearMain.ArgumentsError | fw_gear_tedana/main.py:254-255 | Building the words raises exactly when some truthy `command-line-args` is not text. |
| ZipHtmls.StemOfHtml | utils/zip_htmls.py:22 | Cutting the last five characters off a `.html` name gives the stem, which with `.html` is the name again. |
| ZipHtmls.ReportNames | utils/zip_htmls.py:22-26 | The archive's name is `<stem>_<destination>.html.zip` and the flattened report's is `<stem>_<destination>.html`. Both are in the output directory, and the archive path is the report path plus `.zip`. |
| ZipHtmls.IndexArchive | utils/zip_htmls.py:22-26 | `index.html` is archived as `index_<destination>.html.zip` in the output directory. |
| ZipHtmls.ZipCommand | utils/zip_htmls.py:30-41 | The argument list is `zip -q -r <archive> index.html`, followed by the `figures` directories of the walk in walk order. |
| ZipHtmls.FigureDirsMembers | utils/zip_htmls.py:33-41 | A path is added exactly when some walked directory has a `figures` subdirectory, and the path is that subdirectory's relative path. |
| ZipHtmls.FigureDirsShape | utils/zip_htmls.py:37-40 | Each walked directory adds at most one path, and every path added ends in `figures`. |
| ZipHtmls.FlattenImageRefs | utils/zip_htmls.py:114-132 | The written text is the report with every figure reference replaced in turn. Without a `figures` directory it is the report unchanged. |
| ZipHtmls.InlineWithoutRefs | utils/zip_htmls.py:121-127 | A report that references no figure is written unchanged. |
| ZipHtmls.InlineOne | utils/zip_htmls.py:126-127 | Every occurrence of `./figures/<name>` becomes the figure's data URI. A report that referenced the figure then holds that URI. |
| ZipHtmls.DataUriRoundTrip | utils/zip_htmls.py:125-127 | The data URI is the `data:image/svg+xml;base64, ` prefix followed by text that decodes back to the figure's bytes. |
| ZipHtmls.ReportDir.ZipHtmls | utils/zip_htmls.py:50-110 | Nothing changes without the path or without html files. Otherwise the index is archived with its figures, and every other report is flattened once, in order. The names end as the two renames leave them. The working directory is restored. |
| ZipHtmls.ReportDir.ProcessReports | utils/zip_htmls.py:71-101 | With `index.html` present, it is archived with its figures, set aside under the save name and restored afterwards. Every other report is flattened in order. A report that has the save name is read with the index's text, since the rename overwrote it. Without it, only the reports are written and the names stay. |
| ZipHtmls.ReportDir.SetIndexAside | utils/zip_htmls.py:72-78 | The index is archived with the walk's `figures` directories, and then renamed to the save name. Nothing else changes. |
| ZipHtmls.ReportDir.WriteReports | utils/zip_htmls.py:82-94 | One flattened report is written per name, in order, to its destination. |
| ZipHtmls.ReportDir.Rename | utils/zip_htmls.py:78 | The directory's names after `os.rename`: the source name becomes the target name, replacing an existing target. Names stay distinct. |
| ZipHtmls.NormalRunKeepsNames | utils/zip_htmls.py:76-101 | When the time-stamped save name is free, setting `index.html` aside and restoring it leaves the directory's names as they were. |
| ZipHtmls.TakenSaveNameIsLost | utils/zip_htmls.py:77-101 | When a file already has the save name, it is overwritten and is missing afterwards. |
| ZipHtmls.WorkListMembers | utils/zip_htmls.py:65-82 | The reports flattened are exactly the `*.html` names other than hidden ones and `index.html`, each once. |
| ZipHtmls.ReportsShape | utils/zip_htmls.py:82-94 | The k-th report written is the flattened text of the k-th work item, at its report path. |
| ZipHtmls.RenameBack | utils/zip_htmls.py:78-101 | Renaming a name to a free name and back restores the listing. |
| Base64.EncodeLength | utils/zip_htmls.py:125 | The encoding has four characters for every started group of three bytes. |
| Base64.EncodeAlphabet | utils/zip_htmls.py:125 | The encoding uses alphabet characters only, except for at most two pads at the very end. |
| Base64.DecodeEncode | utils/zip_htmls.py:125 | Decoding the encoding gives the bytes back. |
| Parser.ParseConfig | fw_gear_tedana/parser.py:16-97 | Fails exactly when the fmriprep archive lists no entry. Otherwise the returned options satisfy every property of the `AppOptions` and `GearOptions` rows. |
| Parser.AppOptions | fw_gear_tedana/parser.py:43-95 | The four config values, "work-dir" when there is a work directory, and the labels of the subject and session. "inputtype" is "fmriprep" or "manual" exactly for those inputs; it is absent, and an error logged, exactly when both or neither of the two inputs are given. |
| Parser.GearOptions | fw_gear_tedana/parser.py:27-88 | Fails exactly when the fmriprep archive lists no entry. The base entries are the config's dry-run and debug flags, the output and work directories, the destination id, the client and the environment. The analysis output directory is `<output-dir>/<destination>`. With fmriprep input, "fmriprep_zipfile" is the archive's path and "fmriprep-dir" is `<work-dir>/<analysis id>/fmriprep`. With any other input, neither is set. An echo file is set, to its input's path, exactly for manual input that gives it. The tool entry is `{"common_command": "tedana", "params": ""}`. No other key is set. |
| Parser.BaseOptions | fw_gear_tedana/parser.py:27-40 | The base entries hold the context's values, and no input or tool entry is set yet. |
| Parser.InputOptions | fw_gear_tedana/parser.py:55-80 | Fails exactly when an fmriprep archive lists no entry. Otherwise it gives the archive and pipeline entries, or the echo files, as in the `GearOptions` row, and keeps the base entries. |
| Parser.EchoOptions | fw_gear_tedana/parser.py:68-79 | With manual input, the first echo file is set to its path. The second and third are set to theirs exactly when given. |
| Parser.AnalysisIdOfEntry | fw_gear_tedana/parser.py:61 | The analysis id is the entry's leading `/`-free part: followed by `/` when the entry has one, the whole entry otherwise. |
| Parser.FmriprepDirShape | fw_gear_tedana/parser.py:66 | The pipeline directory is named `fmriprep` and contains the analysis id. |

## Left out

- Running programs is not modelled: `ls`, `zip` and `tedana` through `subprocess`, `execute_shell` and `exec_command`. Their output or argument lists are parameters or results.
- File-system effects are not modelled: `os.makedirs`, the unzipping of the archive (`unzip_file`), and the moves `os.rename` makes in the output directory. `RenameOutputs` returns the moves instead of making them.
- `build_command_list` comes from the gear toolkit and is not part of this model. It is a function parameter of `GenerateCommand`.
- `os.walk` is given as its entries, each with its relative path already computed. The `commonprefix`/`relpath` normalisation is not modelled, and neither is path normalisation in general.
- `fmriprep_get_echos` only builds an `ls` pattern. Shell glob matching is not modelled; its result is what `ParseListing` reads.
- The echo times are read from JSON sidecars and scaled as floating point. They are left out, and so are the `d` and `e` argument options built from them.
- `run`, `prepare` and `run_manual_pipe` (a stub that only logs) are not part of this model. The loop of `run_fmriprep_pipe` is modelled through its steps, not as a whole.
- The clock is a parameter of `ZipHtmls.ReportDir.ZipHtmls`: the already formatted time stamp.
- The BeautifulSoup parse in `flatten_image_refs` is unused and left out. So are logging and the error handler; a logged input mismatch is the `errorLogged` flag.
- The SDK client and `os.environ` are opaque values in the gear options.
- The toolkit's work directory is a `pathlib.Path`, which Python always treats as truthy. The model takes it as a string and treats it as truthy when it is not empty, so the empty string stands for the `None` case of parser.py:52. The input paths are treated the same way.
- GearMain.FmriprepGetTasks: `list(set(...))` has no defined order, so only membership and distinctness are promised.
- Every entry of a `figures` directory is taken to be a readable file, and figures are encoded from their bytes.
- A failing `zip` raises under `check=True`; the model treats every run as successful.
- The flattened reports are written to the output directory, so they are recorded in `reports` and not in the report directory's names.
- Parser.ParseConfig: the gear and app assignments are made one dictionary after the other, though the source interleaves them. The app options read only the gear's "work-dir" (parser.py:51-53). That entry is the context's work directory unchanged (parser.py:31), so `AppOptions` takes `ctx.workDir` directly.
- Base64.Decode: decodes only well-formed text; invalid characters and bad padding, which `b64decode` rejects, are not modelled.

## Findings

| source | as written | input that shows it | evidently intended | confidence | as-written member | corrected member |
|---|---|---|---|---|---|---|
| fw_gear_tedana/main.py:173 | The rename replaces "tedana" in the whole path, directories included. | "bids" layout, output `/flywheel/v0/work/<dest>/fmriprep/derivatives/tedana/sub-01/ses-1/func/tedana_report.html`, prefix `sub-01_ses-1_task-rest`. The target is under `derivatives/sub-01_ses-1_task-rest/...`, which does not exist. | Replace "tedana" in the file's name only, keeping its directory. | not executed | GearMain.BidsRenameLeavesDir | GearMain.RenameKeepsDir |
| fw_gear_tedana/main.py:131 | The mask pattern reads `app_options["prefix"]`, which `parse_config` never sets (the prefix is in `arg_options`). | Any run with `explicit-mask` set: the lookup raises a KeyError. | Build the pattern from the run prefix just computed, `arg_options["prefix"]`. | not executed | GearMain.ExplicitMaskLookupFails | GearMain.ExplicitMaskOfRun |
