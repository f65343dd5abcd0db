# photo_slideshow: the segment stage of `to_slide_show.py`, in Dafny

`src/photo_slideshow/to_slide_show.py` turns a directory of photos and videos into a
slideshow video. This project models the part of the script that decides what goes into
that video and in which order:

- **Inventory.** `main` takes the directory listing, sorts it, keeps the names whose
  lower-cased form ends in `.jpg`, `.jpeg`, `.mp4` or `.mov`, and joins each name to the
  media directory. The position of a file in that list is the index of its job
  (`inventory.dfy`, module `Media`).
- **One job per item.** `process_one_media` names the segment `segment_{i:03d}.mp4` and,
  for a photo, the captioned copy `labeled_{i:03d}.jpg`. For a photo it reads the caption
  (`get_exif_label` / `parse_exif`, in `exif.dfy`, module `Exif`) and the height
  (`get_photo_resolution`, in `resolution.dfy`, module `Resolution`, followed by
  `int(height)`). Any of those can raise (`slideshow.dfy`, module `SlideShow`).
- **Collection and concat list.** `main` pre-sizes `segment_paths` with one `None` per
  item (the class `SegmentTable`). Each job that finishes writes its segment into the slot
  of its own index, in whatever order the jobs finish. The first job that raises ends the
  run. Otherwise every written slot becomes a `file '<absolute path>'` line of the concat
  list, in slot order.

`text.dfy` (module `Text`) states the Python string operations the script relies on:
- `str(n)` and `{n:03d}`;
- `startswith`, `endswith` and `lower()`;
- `split(c)[-1]`, `strip()` and `splitlines()`, with Python's own whitespace and
  line-boundary sets;
- POSIX `os.path.join`.

`wrappers.dfy` holds `Option` and `Result`.

The external tools are not run. What they report is an input of the model:
- For item `i`, `probes(i)` holds the exit code and output of `identify` (the metadata)
  and of `convert -print '%w:%h'` (the size).
- The order in which the thread pool hands back finished jobs is a permutation `order` of
  the indices.
- `os.path.abspath` is the function parameter `absPath`.
- Python's text for a float `num / den` is the function parameter `floatText`.

The main results:
- `parse_exif` is proved against a fold `Scan`. Each caption field holds the value of the
  last line that sets it (`ScanFields`, `LastValueAt`). The caption reads `None` where no
  line sets the field (`LastValueNone`, `NoMetadata`). The loop raises exactly when a
  focal-length or f-number value cannot be evaluated (`ScanSucceeds`).
- Segment names are injective in the index (`SegmentPathInjective`). Slot writes to
  distinct indices commute (`FillOrderIrrelevant`). So, whatever the completion order,
  a run in which no job fails yields one concat line per item, and line `k` names segment
  `k` (`AssembledInIndexOrder`, `Run`).
- The inventory holds exactly the media names of the listing, as often as they are
  listed, in sorted order (`InventoryContents`).

The model keeps three behaviours of the script as written:
- A `DateTimeOriginal` line also sets the lens model, because line 69 assigns
  `len_model` inside that branch. When such a line is the last to touch the lens model,
  the caption shows the timestamp in the lens slot (`DateLineSetsLens`).
- `get_photo_resolution` raises when the size tool fails. It also raises when the last
  line has more than one `:`, because the two-name unpacking then fails. It falls back to
  `("0", "0")` only when there is no line, or the last line has no `:`.
- The first job that raises stops the collection of results. The script exits with
  code 1 once the pool has drained. No partial concat list is written.

## Model

| member | source | states |
|---|---|---|
| Text.Decimal | src/photo_slideshow/to_slide_show.py:140 | `str(n)` of a non-negative integer is a non-empty digit string with no leading zero (except `0` itself) |
| Text.DecimalRoundTrip | src/photo_slideshow/to_slide_show.py:140 | reading back the digits `str(n)` writes gives `n` |
| Text.ZeroPad | src/photo_slideshow/to_slide_show.py:140 | `{:0>w}` padding: the result is at least `w` long, ends with the digits and is `0` before them |
| Text.PaddedDecimalValue | src/photo_slideshow/to_slide_show.py:140 | `{i:03d}` is a digit string whose value is `i`, so it names `i` and no other index |
| Text.Lower | src/photo_slideshow/to_slide_show.py:143 | `lower()` of ASCII letters: the length is kept and each character is lower-cased in place |
| Text.AfterLast | src/photo_slideshow/to_slide_show.py:60 | `split("=")[-1]` is the suffix after the last `=`: it holds no `=`, and the character before it is `=` unless it is the whole line |
| Text.IndexOf | src/photo_slideshow/to_slide_show.py:97-98 | the first position of a character, or the length when it is absent |
| Text.TrimStart | src/photo_slideshow/to_slide_show.py:93 | `lstrip()` removes exactly the leading whitespace: what it drops is all space, and what is left is a suffix not starting with space |
| Text.TrimEnd | src/photo_slideshow/to_slide_show.py:93 | `rstrip()` removes exactly the trailing whitespace |
| Text.Strip | src/photo_slideshow/to_slide_show.py:93 | `strip()` leaves text that neither starts nor ends with whitespace |
| Text.StripUnspaced | src/photo_slideshow/to_slide_show.py:93 | text that neither starts nor ends with whitespace is unchanged by `strip()` |
| Text.SplitLines | src/photo_slideshow/to_slide_show.py:47 | `splitlines()` gives no line exactly for the empty string |
| Text.SplitLinesSplits | src/photo_slideshow/to_slide_show.py:47 | the lines, each followed by the boundary `splitlines()` drops, spell out the text: no line holds a boundary, `\r\n` counts as one boundary, and a trailing boundary starts no extra line |
| Text.SplitsAreSplitLines | src/photo_slideshow/to_slide_show.py:47 | conversely, any lines that spell out the text in that way are exactly what `splitlines()` returns |
| Text.SplitLinesLast | src/photo_slideshow/to_slide_show.py:93-96 | for text that does not end with a line boundary, `lines[-1]` is non-empty, holds no boundary, ends the text and follows a boundary (or is the whole text) |
| Text.PathJoin | src/photo_slideshow/to_slide_show.py:140 | `os.path.join(dir, name)` ends with `name`; for a relative name it is `dir`, then a `/` unless `dir` is empty or already ends with one, then `name`: it starts with `dir`, its length is exactly that sum, and the `/` stands right before `name` |
| Text.JoinKeepsExtension | src/photo_slideshow/to_slide_show.py:176 | joining a name to a directory never changes which extension its lower-cased form ends with |
| Exif.EvalNumber | src/photo_slideshow/to_slide_show.py:56-63 | `eval` of a value succeeds only on an integer literal, giving its value, or on `literal/literal`, giving the two values cut at a `/`; a quotient exactly when the text has a `/`; a quotient's denominator is never zero and the quotient fits a double |
| Exif.EvalWholeReadsBack | src/photo_slideshow/to_slide_show.py:56-63 | every whole number written in decimal evaluates to itself |
| Exif.EvalRatioReadsBack | src/photo_slideshow/to_slide_show.py:56-63 | every `n/d` written in decimal, with `d > 0` and a quotient that fits a double, evaluates to that quotient |
| Exif.EvalRatioRefused | src/photo_slideshow/to_slide_show.py:56-63 | `n/0` and every `n/d` whose quotient overflows a double raise, as Python's division does |
| Exif.Truncate | src/photo_slideshow/to_slide_show.py:56 | `int(eval(...))` of a whole number is the number; of a quotient it is the floor `q` with `q*den <= num < (q+1)*den` |
| Exif.KeysExclusive | src/photo_slideshow/to_slide_show.py:55-71 | no line starts with two of the six keys, so the `continue`s never skip a test that could match |
| Exif.StepSucceeds | src/photo_slideshow/to_slide_show.py:55-72 | one turn of the loop raises exactly when the line is a focal-length or f-number line whose value does not evaluate |
| Exif.StepUpdates | src/photo_slideshow/to_slide_show.py:55-72 | one turn of the loop sets every field the line assigns to the line's value (a date line sets the lens model too) and leaves the others unchanged |
| Exif.ScanSucceeds | src/photo_slideshow/to_slide_show.py:54-72 | the loop finishes exactly when every line's numeric value, if any, evaluates |
| Exif.ScanFields | src/photo_slideshow/to_slide_show.py:47-72 | after the loop each field holds the value of the last line that sets it, or `None` |
| Exif.LastValueNone | src/photo_slideshow/to_slide_show.py:48-53 | a field stays `None` exactly when no line sets it |
| Exif.LastValueAt | src/photo_slideshow/to_slide_show.py:54-72 | the last line that sets a field decides its value, whatever earlier lines said |
| Exif.DateLineSetsLens | src/photo_slideshow/to_slide_show.py:65-69 | when a `DateTimeOriginal` line is the last to touch the lens model, the lens slot repeats the timestamp |
| Exif.ScanStopsAtError | src/photo_slideshow/to_slide_show.py:56-63 | once a line raises, no later line changes the outcome |
| Exif.Caption | src/photo_slideshow/to_slide_show.py:73 | the label starts with `ISO ` and ends with eighteen spaces and the date text |
| Exif.UnsetCaption | src/photo_slideshow/to_slide_show.py:73 | with no field set the label prints `None` in all six places |
| Exif.ParseExif | src/photo_slideshow/to_slide_show.py:46-74 | the loop over the lines, reassigning six locals, returns the caption of the fold (or its error) |
| Exif.ExifLabel | src/photo_slideshow/to_slide_show.py:77-83 | the label is empty exactly when the metadata tool fails, and is `parse_exif`'s result otherwise |
| Exif.NoMetadata | src/photo_slideshow/to_slide_show.py:46-74 | output in which no line starts with a key gives the all-`None` caption |
| Resolution.LastLine | src/photo_slideshow/to_slide_show.py:93-96 | a last line exists exactly when the stripped output is not empty, and it is the final line of the stripped output |
| Resolution.SplitResolution | src/photo_slideshow/to_slide_show.py:97-100 | a last line without `:` gives `("0", "0")`; with exactly one `:` it gives the two sides; with more it raises |
| Resolution.GetPhotoResolution | src/photo_slideshow/to_slide_show.py:85-102 | raises exactly when the tool fails; otherwise the fallback, the two sides of the last line's single `:`, or an unpacking error |
| Media.SortNamesCorrect | src/photo_slideshow/to_slide_show.py:174 | `sorted` keeps every name as often as it occurs and orders them by code point |
| Media.MediaNamesCount | src/photo_slideshow/to_slide_show.py:175-176 | the filter keeps each media name as often as it occurs and no other name |
| Media.MediaNamesSorted | src/photo_slideshow/to_slide_show.py:174-176 | filtering a sorted listing leaves it sorted |
| Media.JoinKeepsKind | src/photo_slideshow/to_slide_show.py:143 | the joined path is a photo (a video) exactly when the listed name is |
| Media.InventoryContents | src/photo_slideshow/to_slide_show.py:171-176 | the inventory names are sorted, hold each media name of the listing as often as it is listed, and nothing else |
| Media.BuildInventory | src/photo_slideshow/to_slide_show.py:171-176 | the loop that appends each photo or video path builds the inventory |
| SlideShow.SegmentNameInjective | src/photo_slideshow/to_slide_show.py:140 | two indices with the same segment name are equal |
| SlideShow.SegmentPathInjective | src/photo_slideshow/to_slide_show.py:140 | two indices with the same segment path in one sandbox are equal |
| SlideShow.ParseInt | src/photo_slideshow/to_slide_show.py:108 | `int(height)` succeeds exactly when the text holds no U+001C to U+001F and, stripped of whitespace, is an optional sign and one or more digits; the value is that of the digits, negated after `-` |
| SlideShow.ParseIntRejectsSeparator | src/photo_slideshow/to_slide_show.py:108 | `int` raises on any text holding U+001C to U+001F, wherever it stands, though `isspace()` counts them as whitespace |
| SlideShow.ParseIntReadsBack | src/photo_slideshow/to_slide_show.py:108 | `int` reads back every non-negative integer written in decimal |
| SlideShow.ParseIntReadsBackNegative | src/photo_slideshow/to_slide_show.py:108 | `int` reads back every non-positive integer written as `-` and its digits |
| SlideShow.ProcessOneMedia | src/photo_slideshow/to_slide_show.py:105-151 | a video job always succeeds. A photo job succeeds exactly when `get_exif_label` and `get_photo_resolution` succeed, the height parses with `int`, and it fits a double. The error is that of the first step that fails, in this order. A finished job made the segment of its own index from its own file; a photo job also made `labeled_{i:03d}.jpg`, with the caption `get_exif_label` gave and the parsed height |
| SlideShow.InventoryKinds | src/photo_slideshow/to_slide_show.py:143 | each inventory item is a photo or a video, and its joined path has the same kind as its name |
| SlideShow.ProcessorWritesOwnSegment | src/photo_slideshow/to_slide_show.py:186 | the callable submitted for item `i` returns the segment path of index `i` |
| SlideShow.FirstFailure | src/photo_slideshow/to_slide_show.py:189-196 | the failure reported is a job that raised and was handed back |
| SlideShow.FirstFailureNone | src/photo_slideshow/to_slide_show.py:189-196 | no failure is reported exactly when every job handed back succeeded |
| SlideShow.FirstFailureIsFirst | src/photo_slideshow/to_slide_show.py:189-196 | a job that raises after a run of successes is the failure reported |
| SlideShow.FillWritten | src/photo_slideshow/to_slide_show.py:193 | with distinct indices, a slot that some write targets holds that write's path |
| SlideShow.FillUntouched | src/photo_slideshow/to_slide_show.py:193 | a slot that no write targets keeps its value |
| SlideShow.FillOrderIrrelevant | src/photo_slideshow/to_slide_show.py:189-193 | the same writes to distinct slots, in any two orders, leave the same slots |
| SlideShow.AllJobsWritten | src/photo_slideshow/to_slide_show.py:183-196 | once every job in any completion order has written, slot `i` holds segment `i` |
| SlideShow.ConcatLinesAppend | src/photo_slideshow/to_slide_show.py:201-203 | the lines of earlier slots come before those of later ones |
| SlideShow.ConcatLinesFull | src/photo_slideshow/to_slide_show.py:201-203 | when every slot is written, the list has one line per slot and line `k` names slot `k` |
| SlideShow.AssembledInIndexOrder | src/photo_slideshow/to_slide_show.py:183-203 | after all jobs, in any order, the concat list names segment `k` on line `k` |
| SlideShow.SegmentTable.constructor | src/photo_slideshow/to_slide_show.py:183 | `[None] * n`: a fresh table of `n` empty slots |
| SlideShow.SegmentTable.Record | src/photo_slideshow/to_slide_show.py:193 | writing a slot changes that slot and no other |
| SlideShow.SegmentTable.ConcatList | src/photo_slideshow/to_slide_show.py:200-203 | the loop over the slots writes one line per written slot, in slot order |
| SlideShow.CollectSegments | src/photo_slideshow/to_slide_show.py:189-196 | the `as_completed` loop returns the first failure in completion order with its error, or fills the table with every job's write |
| SlideShow.RunJobs | src/photo_slideshow/to_slide_show.py:182-203 | for a non-empty inventory: the first failure in completion order, or the concat list with segment `k` on line `k` |
| SlideShow.Run | src/photo_slideshow/to_slide_show.py:171-203 | an empty inventory does nothing; otherwise the first failing job stops the run, and if none fails the concat list has one line per item in index order |

## Left out

- Running the external tools (`identify`, `convert`, `ffmpeg`, `ffprobe`) and
  `run_os_command` are not modelled. Their exit codes and outputs are inputs. The command
  strings they are given are not modelled either.
- The rendering of the captioned image (`add_meta`'s `y_offset` and `point_size`,
  computed with floats) is not modelled. The job keeps the caption and the parsed height
  the rendering would use.
- The threads of the pool are not modelled, only the order in which finished jobs are
  handed back. The script waits for the remaining jobs after the first failure. Since that
  does not change the outcome, it is not modelled.
- Files are not modelled: the sandbox's removal and creation, the directory listing
  (an input), `os.path.abspath` (a parameter), and writing the concat file (its lines are
  the result).
- After the concat list, nothing is modelled: the concat command, `get_video_duration`
  (floats), `pick_audio` (randomness) and `attach_audio`.
- Argument parsing, `print` and `sys.exit` are not modelled. The exit codes become
  `RunOutcome` values.
- Exif.EvalNumber: `eval` is narrowed to an unsigned integer literal or a quotient of two
  such literals. Whatever else `eval` would accept (signs, floats, underscores, spaces,
  expressions) is treated as an error. A zero denominator and a quotient of at least
  2^1024 - 2^970 are errors too, as in Python.
- Exif.Truncate: it is the exact floor of the quotient. Python's `int(a / b)` truncates the
  double nearest to `a / b`. That differs from the floor whenever the double is not below
  the next integer, or, for large quotients, is a different integer than the floor.
  For example, `int(99999999999999999/100000000000000000)` is 1 in Python and 0 here.
- Python limits conversion between `int` and `str` to 4300 digits. That limit is not
  modelled, so a value with more digits reads and prints here where Python would raise.
- Exif.ShowNumber: Python's text for the float `num / den` is the parameter `floatText`,
  not a model of float formatting.
- Text.Lower: only the ASCII letters are lower-cased, one character for one. Python also
  lower-cases other letters, and some of them become two characters (`'İ'.lower()` has
  length 2). This changes no test here: no non-ASCII character lower-cases to a letter of
  `.jpg`, `.jpeg`, `.mp4` or `.mov`.
- SlideShow.ProcessOneMedia: the height's float arithmetic is reduced to its one failure,
  `OverflowError` for a height of at least 2^1024 - 2^970 in magnitude. The values
  `y_offset` and `point_size` are not computed.
- SlideShow.ParseInt: it accepts ASCII digits only, without underscores. Python's `int`
  also accepts other Unicode decimal digits and `_` between digits.
