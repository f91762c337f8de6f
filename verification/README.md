# ozi2geotiff in Dafny

A model of `convert_ozi_map` from `ozi2geotiff.py`, the function that turns an
OziExplorer `.map` calibration file and its raster image into a georeferenced
GeoTIFF. The model covers the two pieces of the function that hold logic.

1. **The calibration loop and the control-point arguments** (lines 68-119).
   - The image name is picked up from the second line when no image is given.
   - Only `Point` records are kept. Each is split on `,` and every field is stripped.
   - Sparse records are skipped without error. A kept record with fewer than 12 fields fails on indexing.
   - For every kept record, the loop keeps its pixel pair and writes one `lon lat` line for `proj`.
   - The `-a_srs` / `-gcp x y lon lat` argument vector pairs the k-th `proj` output line with the k-th pixel pair.
   - The line counter `i` is reused by the field-strip loop. This is modelled exactly: after a `Point` line the counter is `len(d) - 1`, so the image pick-up can happen on a later line.
2. **The staged conversion and its temporary-file cleanup** (lines 121-178).
   - Six external tools run in order: gdal_translate, gdalwarp, a tiling gdal_translate, convert, listgeo and geotifcp.
   - An inner `finally` removes tmp2.
   - An outer `finally` removes tmp1, tmp3, tmp4 and tmp5, visited in that order. A name that was never assigned raises `NameError`, and that error replaces the stage's own exception. Hence a failure before line 133 surfaces as an unbound tmp3, and one before line 149 as an unbound tmp5.

The modules follow the program's structure:

| file | module | contents |
|---|---|---|
| `failures.dfy` | `Failures` | `Option`, the pipeline stages, the temporary names, every exception the function can end with, and a `Result` usable with `:-` |
| `text.dfy` | `Text` | Python 2 `str.strip()`, `str.split(sep)` and its inverse `sep.join`, `str.split()` and `startswith` |
| `paths.dfy` | `PathNames` | `ntpath.basename` (drive letters only), `posixpath.dirname`, `posixpath.join` |
| `calibration.dfy` | `Calibration` | the loop over the calibration lines, and reference definitions of the kept records, their pixel pairs and coordinate lines |
| `gcp.dfy` | `Gcp` | the pairing of projector output with pixel pairs, as a recursive function and as the loop of lines 111-116 |
| `pipeline.dfy` | `Pipeline` | the try / finally structure over an abstract file system (the set of existing paths) and abstract tool runs (exit status, and whether the destination file was written) |
| `convert.dfy` | `Converter` | `ConvertOziMap`, all of the above composed |

These behaviours of the code are modelled exactly as written.

- **Skipped records.** A `Point` record whose third field (`d[2]`, the pixel X) is empty or only whitespace is skipped, and so is one with fewer than three fields. `Calibration.BlankPixelXSkipped` and `Calibration.FewFieldsSkipped` state this.
- **Unbound names in the outer `finally`.** The stage errors replaced by `NameError` are modelled as they happen.
- **The reused line counter.** It is modelled as it happens.
- **The empty image path.** `os.access` is false for the empty path. So when a calibration file named without a directory has a blank second line, the pick-up raises "can't find img file". `Calibration.Accessible` models this.

## Model

| member | source | states |
|---|---|---|
| `Text.Split` | ozi2geotiff.py:85 | `line.split(",")` gives at least one part, no part contains a comma, and joining the parts with commas gives the line back |
| `Text.SplitJoin` | ozi2geotiff.py:85 | splitting the comma-join of comma-free parts gives exactly those parts back (the inverse direction of the round trip) |
| `Text.StripPadded` | ozi2geotiff.py:86-87 | `strip()` of a field padded on both sides with whitespace is the field itself, provided the field neither starts nor ends with whitespace |
| `Text.StripInfix` | ozi2geotiff.py:86-87 | `strip()` returns a contiguous slice of its input, and only whitespace is cut off at either end |
| `Text.StripIdempotent` | ozi2geotiff.py:86-87 | stripping a stripped field changes nothing |
| `Text.TokensAreWords` | ozi2geotiff.py:114 | every token `str.split()` returns is nonempty and free of whitespace |
| `Text.TokensIff` | ozi2geotiff.py:114 | `str.split()` returns a given list of words iff the line is whitespace, then those words with whitespace between consecutive ones, then whitespace |
| `Text.TokensOfLayout` | ozi2geotiff.py:114 | for any such layout of a line, `str.split()` returns exactly its words, in order |
| `Text.TokensLayout` | ozi2geotiff.py:114 | every line has such a layout whose words are what `str.split()` returns |
| `Text.TokensCover` | ozi2geotiff.py:114 | the tokens, joined without separators, are the line with all whitespace removed |
| `Text.TokensEmpty` | ozi2geotiff.py:114 | `str.split()` returns no token iff the line is all whitespace |
| `Text.TokensOfPair` | ozi2geotiff.py:114 | a line holding two whitespace-free words, separated and followed by whitespace, splits into exactly those two words |
| `PathNames.NtBaseNameOf` | ozi2geotiff.py:78 | `ntpath.basename` of `dir\name` or `dir/name` is `name`, whether or not the path starts with a drive letter |
| `PathNames.JoinBesideFile` | ozi2geotiff.py:79 | joining a relative name onto the directory of `dir/file` gives `dir/name` |
| `PathNames.JoinWithoutDirectory` | ozi2geotiff.py:79 | for a calibration file named without a directory, the image name is used as it stands |
| `Calibration.ImageBesideCalibration` | ozi2geotiff.py:77-79 | a padded second line `C:\...\name` names the image `dir/name` for the calibration file `dir/file` |
| `Calibration.ImageFromSecondLine` | ozi2geotiff.py:76-82 | with no image given and a first line that is not a record, the image comes from the second line; a missing file or an empty path raises "can't find img file", and an existing one makes the parse behave exactly as if it had been given |
| `Calibration.PickedOnCounterTwo` | ozi2geotiff.py:76-82 | the pick-up happens on the pass where the incremented counter is 2, and a missing file or an empty path raises, and otherwise the loop behaves from then on as with an explicit image |
| `Calibration.StepImage` | ozi2geotiff.py:76-87 | one pass fails with the pick-up's error, keeps the image the pick-up chose, and leaves the counter at i for a non-record line and at `len(d) - 1` for a record |
| `Calibration.RecordStep` | ozi2geotiff.py:85-107 | the rest of a record's pass never changes the image, and the strip loop leaves the counter at `len(d) - 1` |
| `Calibration.CounterReusedByStripLoop` | ozi2geotiff.py:74-87 | after a first line that is a `Point` record without commas, the counter restarts, so the image is named by the third line, not the second, and a missing file or an empty path there raises |
| `Calibration.NonRecordLineIgnored` | ozi2geotiff.py:83-84 | inserting a line that does not start with `Point` anywhere changes nothing (with an explicit image) |
| `Calibration.BlankPixelXSkipped` | ozi2geotiff.py:85-93 | a `Point` record whose third field is empty or only whitespace is skipped without error, whatever follows it |
| `Calibration.FewFieldsSkipped` | ozi2geotiff.py:85-93 | a `Point` record with one or two fields, such as a bare `Point10`, is skipped without error |
| `Calibration.MissingIndex` | ozi2geotiff.py:94-102 | for a kept record of n < 12 fields, the failing index is past the end, and it is the first such index in the order the fields are read (2, 3, 8, 6, 7, 11, 9, 10) |
| `Calibration.ParseWithImage` | ozi2geotiff.py:92-102 | with an explicit image, the parse succeeds iff every kept record has 12 fields, keeps the image, and otherwise fails with the index error of the first short kept record |
| `Calibration.ParseLinesGiven` | ozi2geotiff.py:92-102 | the loop from any state with a known image fails exactly at the first short kept record |
| `Calibration.ParseLinesRetained` | ozi2geotiff.py:75-107 | a successful loop has read every kept record in full, and has appended one pixel pair `(d[2], d[3])` and one coordinate line per kept record, in file order |
| `Calibration.ParseRetained` | ozi2geotiff.py:94-107 | a successful parse holds exactly the pixel pairs and coordinate lines of the kept records |
| `Calibration.ParseKeepsOrder` | ozi2geotiff.py:94-107 | the k-th pixel pair and the k-th coordinate line both come from the k-th kept record, so the two counts are equal |
| `Calibration.CoordLineTokens` | ozi2geotiff.py:103-105 | the coordinate line `d[9] "d" d[10] d[11] " " d[6] "d" d[7] d[8] "\n"` splits into exactly two tokens, longitude first, when the six fields hold no whitespace |
| `Gcp.Groups` | ozi2geotiff.py:112-116 | pairing succeeds iff there are no more output lines than pixel pairs and each line has exactly two tokens, and then yields 5 arguments per line; otherwise it fails with an unpacking error or a pop from an empty list |
| `Gcp.BuildArgs` | ozi2geotiff.py:111-116 | the loop as written computes `-a_srs projection` followed by the groups, of length 2 + 5·n, under the same success condition |
| `Gcp.GroupAt` | ozi2geotiff.py:112-116 | the k-th group is `-gcp x y lon lat`, with the k-th pixel pair and the two tokens of the k-th output line |
| `Gcp.GroupsFailAt` | ozi2geotiff.py:114-115 | the first bad output line decides the error, and the token count is checked before the pop |
| `Gcp.StubProjector` | ozi2geotiff.py:103-116 | a projector answering each coordinate line with one `lon\tlat\n` line yields one group per point, carrying the k-th pixel pair and the projector's answer to the k-th coordinate line |
| `Pipeline.WarpAndTileFrame` | ozi2geotiff.py:135-142 | the inner `finally` removes tmp2 whether gdalwarp or the tiling gdal_translate fails or succeeds, and touches no path other than tmp2 and tmp3 |
| `Pipeline.FirstFailingMinimal` | ozi2geotiff.py:121-163 | the reference index of the first failing stage: every earlier stage succeeds, and that stage fails |
| `Pipeline.SweepRemoves` | ozi2geotiff.py:166-178 | the outer `finally` removes only files of the names it visits, and removes the file of every name it reaches while all names so far are bound |
| `Pipeline.SweepError` | ozi2geotiff.py:166-178 | the outer `finally` keeps the pending exception when every name is bound, and otherwise raises NameError for the first unbound name |
| `Pipeline.TryBlockStarted` | ozi2geotiff.py:122-163 | the try block starts the stages in order, up to and including the first failing one; a stage whose argument vector holds None is not started |
| `Pipeline.TryBlockRaised` | ozi2geotiff.py:122-163 | the exception leaving the try block is the first failing stage's own, or none |
| `Pipeline.TryBlockBound` | ozi2geotiff.py:121-149 | tmp1 is always bound, tmp2 to tmp4 are bound once the first gdal_translate succeeds, and tmp5 once convert succeeds too |
| `Pipeline.TryBlockOthers` | ozi2geotiff.py:122-163 | the try block changes no path other than the temporary files and the output file |
| `Pipeline.TryBlockOutput` | ozi2geotiff.py:158-163 | the output file exists after the try block iff it existed before, or geotifcp was started and wrote it |
| `Pipeline.TryBlockTidy` | ozi2geotiff.py:121-163 | on leaving the try block, tmp2 is gone, every existing temporary file has its name bound, and the names are bound in the order the code binds them |
| `Pipeline.SweepCleans` | ozi2geotiff.py:166-178 | starting from such a tidy state, the outer `finally` removes every temporary file and no other path |
| `Pipeline.StagesCleanUp` | ozi2geotiff.py:121-178 | whatever fails, none of tmp1 to tmp5 exists at the end, no other path changes, and the output exists iff it already did or all six stages ran and geotifcp wrote it |
| `Pipeline.StagesError` | ozi2geotiff.py:121-178 | the exception that escapes: none on success, the stage's own for listgeo and geotifcp, NameError on tmp3 when the first gdal_translate fails, and NameError on tmp5 when gdalwarp, the tiling gdal_translate or convert fails |
| `Pipeline.StagesStarted` | ozi2geotiff.py:121-178 | the stages started by the whole function are the stage order, up to the first failure |
| `Pipeline.TranslateStartsFirst` | ozi2geotiff.py:124-127 | when there is an image, the first command started is the first gdal_translate |
| `Pipeline.StageErrorMasked` | ozi2geotiff.py:129-178 | when gdal_translate, gdalwarp, the tiling gdal_translate or convert is the first to fail, the exception that escapes is a NameError, never the stage's own |
| `Converter.EarlyFailure` | ozi2geotiff.py:68-119 | with an explicit image, none of the six pipeline stages is started and no file changes iff a kept record is short, the projector output does not pair up with the records, or proj exits nonzero; the error is the first of these, and otherwise the staged conversion runs |
| `Converter.NoTemporaryLeft` | ozi2geotiff.py:68-178 | given fresh temporary names, however the function ends, no temporary file remains and no path other than the output file changes |
| `Converter.FirstCommandIsTranslate` | ozi2geotiff.py:111-127 | when parsing and pairing succeed, the first command is gdal_translate on `-a_srs projection` followed by the groups of the kept records' pixel pairs |
| `Converter.FirstCommand` | ozi2geotiff.py:111-127 | the first command is `gdal_translate -a_srs projection`, then one `-gcp x y lon lat` group per projector line, pairing the k-th line's tokens with `d[2]`, `d[3]` of the k-th kept record, then the image and tmp1 |

## Left out

- External processes (`proj`, gdal_translate, gdalwarp, convert, listgeo, geotifcp) are not modelled internally.
  - Each tool run is its exit status and whether its destination file exists afterwards, given as a parameter.
  - `proj`'s output is a given sequence of lines plus an exit status. The pipe interplay with its input is process I/O.
  - `Gcp.StubProjector` covers a projector that answers line for line.
- Process start-up failures are left out. Running `proj` through the shell may fail to start; the only start-up failure modelled is a `None` in an argument vector, which raises before the process starts.
- The Mercator reprojection and `degmin_to_deg` (lines 31-35) are left out. They are floating point, and `degmin_to_deg` is never called.
- `tempfile.mktemp` naming is left out. The five names are a parameter, and `Pipeline.Fresh` states what the cleanup results assume of them.
  - That none of the names exists is mktemp's own promise.
  - That they are pairwise distinct, and that none is the output path, is an assumption. mktemp does not promise it.
- `os.access` and `os.unlink` are only membership in and removal from the set of existing paths. The empty path never exists.
- The host is POSIX: `os.path` is `posixpath`. Windows hosts, where `os.path` is `ntpath`, are left out.
- Opening and closing the map file and the tmp5 handle is left out. The calibration file arrives as its sequence of lines, and failing to open it is not modelled.
- Option parsing, logging and the `debug` / `info` calls (lines 180-205) are left out.
- `ntpath.splitdrive` is modelled for drive letters only. UNC paths (`\\server\share`) are left out.
- Strings are Python 2 byte strings: `strip()` and `split()` treat the six ASCII whitespace characters as whitespace.
- The tool commands are kept apart from the control flow. `Pipeline.TryBlock` records which stages were started, and `Pipeline.Command` gives each stage's argument vector, exactly as the code builds it.
- Converter.EarlyFailure: for output that does not pair up with the records, it only says the error is an unpacking error or a pop from an empty list. `Gcp.GroupsFailAt` says which one.
