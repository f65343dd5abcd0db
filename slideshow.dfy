/**
 * The segment stage of src/photo_slideshow/to_slide_show.py: `process_one_media`
 * (segment and labeled-image names, the photo/video branch and the errors a job can
 * raise), the pre-sized `segment_paths` list that finished jobs write by index, the
 * concat list written from it, and the part of `main` that ties them together.
 *
 * External tools are not run: what the metadata and resolution probes print for item
 * `i` is the input `probes(i)`; the order in which jobs finish is the input `order`.
 */
module SlideShow {
  import opened Wrappers
  import opened Text
  import opened Media
  import Exif
  import Resolution

  // ---------------------------------------------------------------------------
  // Names of the per-item files

  /** `segment_{i:03d}.mp4` */
  function SegmentName(i: nat): string
  {
    "segment_" + ZeroPad(Decimal(i), 3) + ".mp4"
  }

  /** `labeled_{i:03d}.jpg` */
  function LabeledName(i: nat): string
  {
    "labeled_" + ZeroPad(Decimal(i), 3) + ".jpg"
  }

  function SegmentPath(sandbox: string, i: nat): string
  {
    PathJoin(sandbox, SegmentName(i))
  }

  /** Distinct indices never share a segment file. */
  lemma SegmentNameInjective(i: nat, j: nat)
    ensures SegmentName(i) == SegmentName(j) ==> i == j
  {
    if SegmentName(i) == SegmentName(j) {
      var a, b := ZeroPad(Decimal(i), 3), ZeroPad(Decimal(j), 3);
      var s := SegmentName(i);
      assert s[8..|s| - 4] == a;
      assert s[8..|s| - 4] == b;
      PaddedDecimalValue(i, 3);
      PaddedDecimalValue(j, 3);
    }
  }

  /** Distinct indices never share a segment path in the same sandbox directory. */
  lemma SegmentPathInjective(sandbox: string, i: nat, j: nat)
    ensures SegmentPath(sandbox, i) == SegmentPath(sandbox, j) ==> i == j
  {
    var n, m := SegmentName(i), SegmentName(j);
    var prefix := DirPrefix(sandbox);
    JoinRelative(sandbox, n);
    JoinRelative(sandbox, m);
    if SegmentPath(sandbox, i) == SegmentPath(sandbox, j) {
      assert n == (prefix + n)[|prefix|..];
      assert m == (prefix + m)[|prefix|..];
      SegmentNameInjective(i, j);
    }
  }

  // ---------------------------------------------------------------------------
  // One job

  /** What the metadata tool and the resolution tool report for one photo. */
  datatype ProbeOutputs = ProbeOutputs(exifCode: int, exifOutput: string, sizeCode: int, sizeOutput: string)

  /**
   * What a finished job produced: for a photo, the labeled copy and its caption, and the
   * height read for placing it; for either kind, the segment file.
   */
  datatype Job =
    | PhotoJob(source: string, labeled: string, caption: string, height: int, segment: string)
    | VideoJob(source: string, segment: string)

  datatype JobError =
    | ExifFailed(exifError: Exif.ExifError)
    | ResolutionFailed(resolutionError: Resolution.ResolutionError)
    | BadHeight(text: string)       // `int(height)` raises `ValueError`
    | HeightTooLarge(height: int)   // `0.47 * int(height)` raises `OverflowError`

  /** What `get_exif_label` gives for the metadata tool's report. */
  function Label(probes: ProbeOutputs, floatText: (nat, nat) -> string): Result<string, Exif.ExifError>
  {
    Exif.ExifLabel(probes.exifCode, probes.exifOutput, floatText)
  }

  /** What `get_photo_resolution` gives for the size tool's report. */
  function Size(probes: ProbeOutputs): Result<(string, string), Resolution.ResolutionError>
  {
    Resolution.GetPhotoResolution(probes.sizeCode, probes.sizeOutput)
  }

  /** An integer that `float` accepts: its magnitude is below the double overflow bound. */
  predicate FitsDouble(n: int)
  {
    -(DoubleOverflow as int) < n < DoubleOverflow
  }

  /**
   * The information separators U+001C to U+001F. `str.isspace()` counts them as
   * whitespace, but `int()` skips only the other whitespace characters, so for `int()`
   * they are neither space, sign nor digit.
   */
  predicate IsSeparatorControl(c: char) { 28 <= c as int <= 31 }

  /** An optional sign followed by one or more ASCII digits. */
  predicate IsSignedDigits(t: string)
  {
    (|t| > 0 && AllDigits(t)) || (|t| > 1 && (t[0] == '-' || t[0] == '+') && AllDigits(t[1..]))
  }

  /**
   * `int(text)` for text without underscores: optional whitespace around an optional sign
   * and digits. A separator control anywhere makes it raise.
   */
  function ParseInt(text: string): (r: Option<int>)
    ensures r.Some? <==>
      (forall i :: 0 <= i < |text| ==> !IsSeparatorControl(text[i])) && IsSignedDigits(Strip(text))
    ensures r.Some? && AllDigits(Strip(text)) ==> r.value == DigitsValue(Strip(text))
    ensures r.Some? && Strip(text)[0] == '+' ==> r.value == DigitsValue(Strip(text)[1..])
    ensures r.Some? && Strip(text)[0] == '-' ==> r.value == -(DigitsValue(Strip(text)[1..]) as int)
  {
    if exists i :: 0 <= i < |text| && IsSeparatorControl(text[i]) then None
    else
      var t := Strip(text);
      var negative := |t| > 0 && t[0] == '-';
      var digits := if |t| > 0 && (t[0] == '-' || t[0] == '+') then t[1..] else t;
      if |digits| > 0 && AllDigits(digits)
      then Some(if negative then -(DigitsValue(digits) as int) else DigitsValue(digits) as int)
      else None
  }

  /** `int(str(n))` is `n` for every non-negative `n`. */
  lemma ParseIntReadsBack(n: nat)
    ensures ParseInt(Decimal(n)) == Some(n)
  {
    var d := Decimal(n);
    assert IsDigit(d[0]) && IsDigit(d[|d| - 1]);
    StripUnspaced(d);
    DecimalRoundTrip(n);
  }

  /** A separator control anywhere in the text makes `int` raise, wherever it stands. */
  lemma ParseIntRejectsSeparator(before: string, c: char, after: string)
    requires IsSeparatorControl(c)
    ensures ParseInt(before + [c] + after) == None
  {
    assert (before + [c] + after)[|before|] == c;
  }

  /** `int("-" + str(n))` is `-n`. */
  lemma ParseIntReadsBackNegative(n: nat)
    ensures ParseInt("-" + Decimal(n)) == Some(-(n as int))
  {
    var d := Decimal(n);
    var t := "-" + d;
    assert IsDigit(t[|t| - 1]);
    StripUnspaced(t);
    assert t[1..] == d;
    DecimalRoundTrip(n);
  }

  /**
   * `process_one_media`: the segment path depends only on the index. A video job cannot
   * fail. A photo job first gets its caption and then its height (`add_meta`): it raises
   * when the caption does, when the size tool fails or its line cannot be unpacked, when
   * the height is not an integer, and when the height is too large to scale as a float.
   * The exit codes of the tools that render the label and the segment are ignored.
   */
  function ProcessOneMedia(i: nat, mediaFile: string, sandbox: string, probes: ProbeOutputs,
                           floatText: (nat, nat) -> string): (r: Result<Job, JobError>)
    ensures r.Ok? ==> r.value.segment == SegmentPath(sandbox, i) && r.value.source == mediaFile
    ensures r.Ok? ==> (r.value.PhotoJob? <==> IsPhotoName(mediaFile))
    ensures !IsPhotoName(mediaFile) ==> r.Ok?
    ensures IsPhotoName(mediaFile) ==>
      (r.Ok? <==> Label(probes, floatText).Ok? && Size(probes).Ok?
                  && ParseInt(Size(probes).value.1).Some? && FitsDouble(ParseInt(Size(probes).value.1).value))
    ensures r.Ok? && r.value.PhotoJob? ==>
      r.value.labeled == PathJoin(sandbox, LabeledName(i))
      && r.value.caption == Label(probes, floatText).value
      && Some(r.value.height) == ParseInt(Size(probes).value.1)
    ensures IsPhotoName(mediaFile) && Label(probes, floatText).Err? ==>
      r == Err(ExifFailed(Label(probes, floatText).error))
    ensures IsPhotoName(mediaFile) && Label(probes, floatText).Ok? && Size(probes).Err? ==>
      r == Err(ResolutionFailed(Size(probes).error))
    ensures IsPhotoName(mediaFile) && Label(probes, floatText).Ok? && Size(probes).Ok?
            && ParseInt(Size(probes).value.1).None? ==>
      r == Err(BadHeight(Size(probes).value.1))
    ensures IsPhotoName(mediaFile) && Label(probes, floatText).Ok? && Size(probes).Ok?
            && ParseInt(Size(probes).value.1).Some? && !FitsDouble(ParseInt(Size(probes).value.1).value) ==>
      r == Err(HeightTooLarge(ParseInt(Size(probes).value.1).value))
    ensures r.Err? && r.error.ExifFailed? ==> probes.exifCode == 0
    ensures r.Err? && r.error.ResolutionFailed? && r.error.resolutionError.ToolFailed? ==> probes.sizeCode != 0
  {
    if IsPhotoName(mediaFile) then
      match Label(probes, floatText)
      case Err(e) => Err(ExifFailed(e))
      case Ok(caption) =>
        match Size(probes)
        case Err(e) => Err(ResolutionFailed(e))
        case Ok((_, height)) =>
          match ParseInt(height)
          case None => Err(BadHeight(height))
          case Some(h) =>
            if !FitsDouble(h) then Err(HeightTooLarge(h))
            else Ok(PhotoJob(mediaFile, PathJoin(sandbox, LabeledName(i)), caption, h, SegmentPath(sandbox, i)))
    else
      Ok(VideoJob(mediaFile, SegmentPath(sandbox, i)))
  }

  /** Every item of the inventory is a photo or a video, and its job sees the kind its name has. */
  lemma InventoryKinds(listing: seq<string>, mediaDir: string, i: nat)
    requires i < |Inventory(listing, mediaDir)|
    ensures var name, path := InventoryNames(listing)[i], Inventory(listing, mediaDir)[i];
      IsMediaName(name) && (IsPhotoName(path) <==> IsPhotoName(name))
      && (IsVideoName(path) <==> IsVideoName(name))
  {
    var name := InventoryNames(listing)[i];
    InventoryContents(listing);
    assert name in InventoryNames(listing);
    assert Inventory(listing, mediaDir)[i] == PathJoin(mediaDir, name);
    JoinKeepsKind(mediaDir, name);
  }

  /** The result of the job for every item, job `i` working on item `i`. */
  function Jobs(media: seq<string>, process: (nat, string) -> Result<Job, JobError>)
    : (jobs: seq<Result<Job, JobError>>)
    ensures |jobs| == |media|
  {
    seq(|media|, i requires 0 <= i < |media| => process(i, media[i]))
  }

  /** `process_one_media` as the callable handed to the executor, with each item's tool outputs. */
  function Processor(sandbox: string, probes: nat -> ProbeOutputs, floatText: (nat, nat) -> string)
    : (nat, string) -> Result<Job, JobError>
  {
    (i: nat, f: string) => ProcessOneMedia(i, f, sandbox, probes(i), floatText)
  }

  /** A job that succeeds made the segment of its own index. */
  ghost predicate WritesOwnSegment(process: (nat, string) -> Result<Job, JobError>, sandbox: string)
  {
    forall i: nat, f: string :: process(i, f).Ok? ==> process(i, f).value.segment == SegmentPath(sandbox, i)
  }

  lemma ProcessorWritesOwnSegment(sandbox: string, probes: nat -> ProbeOutputs, floatText: (nat, nat) -> string)
    ensures WritesOwnSegment(Processor(sandbox, probes, floatText), sandbox)
  {
    var process := Processor(sandbox, probes, floatText);
    forall i: nat, f: string | process(i, f).Ok? ensures process(i, f).value.segment == SegmentPath(sandbox, i) {
      assert process(i, f) == ProcessOneMedia(i, f, sandbox, probes(i), floatText);
    }
  }

  // ---------------------------------------------------------------------------
  // Completion order

  /** `as_completed` hands back every job exactly once, in some order. */
  predicate IsCompletionOrder(order: seq<nat>, n: nat)
  {
    |order| == n
    && (forall k :: 0 <= k < |order| ==> order[k] < n)
    && (forall a, b :: 0 <= a < b < |order| ==> order[a] != order[b])
    && (forall j :: 0 <= j < n ==> j in order)
  }

  /** The index of the first job, in completion order, that raised. */
  function FirstFailure(order: seq<nat>, jobs: seq<Result<Job, JobError>>): (r: Option<nat>)
    requires forall k :: 0 <= k < |order| ==> order[k] < |jobs|
    ensures r.Some? ==> r.value < |jobs| && jobs[r.value].Err? && r.value in order
  {
    if order == [] then None
    else
      match FirstFailure(order[..|order| - 1], jobs)
      case Some(i) => Some(i)
      case None =>
        if jobs[order[|order| - 1]].Err? then Some(order[|order| - 1]) else None
  }

  /** No job fails first exactly when no job fails at all. */
  lemma {:induction false} FirstFailureNone(order: seq<nat>, jobs: seq<Result<Job, JobError>>)
    requires forall k :: 0 <= k < |order| ==> order[k] < |jobs|
    ensures FirstFailure(order, jobs).None? <==> forall k :: 0 <= k < |order| ==> jobs[order[k]].Ok?
  {
    if order != [] {
      var init := order[..|order| - 1];
      FirstFailureNone(init, jobs);
      assert forall k :: 0 <= k < |init| ==> init[k] == order[k];
    }
  }

  /** A job that succeeds after a run of successes extends that run. */
  lemma FirstFailureNext(order: seq<nat>, jobs: seq<Result<Job, JobError>>, k: nat)
    requires forall k :: 0 <= k < |order| ==> order[k] < |jobs|
    requires k < |order| && FirstFailure(order[..k], jobs).None? && jobs[order[k]].Ok?
    ensures FirstFailure(order[..k + 1], jobs).None?
  {
    assert order[..k + 1][..k] == order[..k];
  }

  /** The failure reported is one every job finishing before it got past. */
  lemma {:induction false} FirstFailureIsFirst(order: seq<nat>, jobs: seq<Result<Job, JobError>>, k: nat)
    requires forall k :: 0 <= k < |order| ==> order[k] < |jobs|
    requires k < |order| && jobs[order[k]].Err?
    requires FirstFailure(order[..k], jobs).None?
    ensures FirstFailure(order, jobs) == Some(order[k])
  {
    var init := order[..|order| - 1];
    if k < |order| - 1 {
      assert init[k] == order[k];
      assert init[..k] == order[..k];
      FirstFailureIsFirst(init, jobs, k);
    } else {
      assert init == order[..k];
    }
  }

  // ---------------------------------------------------------------------------
  // Writing results into slots

  function Empty(n: nat): (slots: seq<Option<string>>)
    ensures |slots| == n && forall k :: 0 <= k < n ==> slots[k] == None
  {
    seq(n, _ => None)
  }

  /** The slots after the writes `(index, path)` were applied one after the other. */
  function Fill(slots: seq<Option<string>>, writes: seq<(nat, string)>): (r: seq<Option<string>>)
    ensures |r| == |slots|
  {
    if writes == [] then slots
    else if writes[|writes| - 1].0 < |slots|
    then Fill(slots, writes[..|writes| - 1])[writes[|writes| - 1].0 := Some(writes[|writes| - 1].1)]
    else Fill(slots, writes[..|writes| - 1])
  }

  predicate DistinctIndices(writes: seq<(nat, string)>)
  {
    forall a, b :: 0 <= a < b < |writes| ==> writes[a].0 != writes[b].0
  }

  /** A slot that some write targets holds that write's path. */
  lemma {:induction false} FillWritten(slots: seq<Option<string>>, writes: seq<(nat, string)>, k: nat)
    requires DistinctIndices(writes) && k < |writes| && writes[k].0 < |slots|
    ensures Fill(slots, writes)[writes[k].0] == Some(writes[k].1)
  {
    var init := writes[..|writes| - 1];
    if k < |writes| - 1 {
      assert init[k] == writes[k];
      FillWritten(slots, init, k);
    }
  }

  /** A slot that no write targets keeps what it held. */
  lemma {:induction false} FillUntouched(slots: seq<Option<string>>, writes: seq<(nat, string)>, j: nat)
    requires j < |slots| && forall k :: 0 <= k < |writes| ==> writes[k].0 != j
    ensures Fill(slots, writes)[j] == slots[j]
  {
    if writes != [] {
      var init := writes[..|writes| - 1];
      assert forall k :: 0 <= k < |init| ==> init[k] == writes[k];
      FillUntouched(slots, init, j);
    }
  }

  /**
   * Writes to distinct slots commute: any two orders of the same writes leave the same
   * slots, so the order in which jobs finish does not matter.
   */
  lemma FillOrderIrrelevant(slots: seq<Option<string>>, w1: seq<(nat, string)>, w2: seq<(nat, string)>)
    requires DistinctIndices(w1) && DistinctIndices(w2) && multiset(w1) == multiset(w2)
    ensures Fill(slots, w1) == Fill(slots, w2)
  {
    var r1, r2 := Fill(slots, w1), Fill(slots, w2);
    forall j | 0 <= j < |slots| ensures r1[j] == r2[j] {
      if k1 :| 0 <= k1 < |w1| && w1[k1].0 == j {
        assert w1[k1] in multiset(w2);
        assert w1[k1] in w2;
        var k2 :| 0 <= k2 < |w2| && w2[k2] == w1[k1];
        FillWritten(slots, w1, k1);
        FillWritten(slots, w2, k2);
      } else {
        forall k | 0 <= k < |w2| ensures w2[k].0 != j {
          assert w2[k] in multiset(w1);
        }
        FillUntouched(slots, w1, j);
        FillUntouched(slots, w2, j);
      }
    }
  }

  /** The writes of the jobs in `order`, each to its own index. */
  function JobWrites(order: seq<nat>, sandbox: string): (writes: seq<(nat, string)>)
    ensures |writes| == |order|
    ensures forall k :: 0 <= k < |order| ==> writes[k] == (order[k], SegmentPath(sandbox, order[k]))
  {
    seq(|order|, k requires 0 <= k < |order| => (order[k], SegmentPath(sandbox, order[k])))
  }

  /** Every slot filled with the segment path of its own index. */
  function AllSegments(n: nat, sandbox: string): (slots: seq<Option<string>>)
    ensures |slots| == n && forall i :: 0 <= i < n ==> slots[i] == Some(SegmentPath(sandbox, i))
  {
    seq(n, i requires 0 <= i < n => Some(SegmentPath(sandbox, i)))
  }

  /** Once every job has finished, in whatever order, slot `i` holds segment `i`. */
  lemma AllJobsWritten(order: seq<nat>, sandbox: string, n: nat)
    requires IsCompletionOrder(order, n)
    ensures Fill(Empty(n), JobWrites(order, sandbox)) == AllSegments(n, sandbox)
  {
    var writes := JobWrites(order, sandbox);
    forall j | 0 <= j < n ensures Fill(Empty(n), writes)[j] == Some(SegmentPath(sandbox, j)) {
      assert j in order;
      var k :| 0 <= k < |order| && order[k] == j;
      FillWritten(Empty(n), writes, k);
    }
  }

  // ---------------------------------------------------------------------------
  // The concat list

  /** The line the concat list holds for one segment. */
  function FileLine(absolute: string): string
  {
    "file '" + absolute + "'\n"
  }

  /** `if segment:`: a slot counts when it holds a non-empty path. */
  predicate Written(slot: Option<string>)
  {
    slot.Some? && slot.value != ""
  }

  /** The lines of the concat list: one per written slot, in slot order. */
  function ConcatLines(slots: seq<Option<string>>, absPath: string -> string): seq<string>
  {
    if slots == [] then []
    else
      ConcatLines(slots[..|slots| - 1], absPath)
      + (if Written(slots[|slots| - 1]) then [FileLine(absPath(slots[|slots| - 1].value))] else [])
  }

  /** Lines follow slot order: the lines of earlier slots come first. */
  lemma {:induction false} ConcatLinesAppend(a: seq<Option<string>>, b: seq<Option<string>>, absPath: string -> string)
    ensures ConcatLines(a + b, absPath) == ConcatLines(a, absPath) + ConcatLines(b, absPath)
    decreases |b|
  {
    if b == [] {
      assert a + b == a;
    } else {
      assert (a + b)[..|a + b| - 1] == a + b[..|b| - 1];
      ConcatLinesAppend(a, b[..|b| - 1], absPath);
    }
  }

  /** When every slot is written, line `k` names slot `k`. */
  lemma {:induction false} ConcatLinesFull(slots: seq<Option<string>>, absPath: string -> string)
    requires forall k :: 0 <= k < |slots| ==> slots[k].Some? && slots[k].value != ""
    ensures |ConcatLines(slots, absPath)| == |slots|
    ensures forall k :: 0 <= k < |slots| ==> ConcatLines(slots, absPath)[k] == FileLine(absPath(slots[k].value))
  {
    if slots != [] {
      var init := slots[..|slots| - 1];
      assert forall k :: 0 <= k < |init| ==> init[k] == slots[k];
      ConcatLinesFull(init, absPath);
    }
  }

  // ---------------------------------------------------------------------------
  // The results list

  /** `segment_paths`: one slot per media item, written by index as jobs finish. */
  class SegmentTable {
    var slots: array<Option<string>>

    /** `[None] * n` */
    constructor (n: nat)
      ensures fresh(slots) && slots[..] == Empty(n)
    {
      slots := new Option<string>[n](_ => None);
    }

    /** `segment_paths[index] = segment_path`: only that slot changes. */
    method Record(index: nat, path: string)
      requires index < slots.Length
      modifies slots
      ensures slots[..] == old(slots[..])[index := Some(path)]
    {
      slots[index] := Some(path);
    }

    /** The loop that writes `file '<absolute path>'` for each written slot, in slot order. */
    method ConcatList(absPath: string -> string) returns (lines: seq<string>)
      ensures lines == ConcatLines(slots[..], absPath)
    {
      lines := [];
      var i := 0;
      while i < slots.Length
        invariant 0 <= i <= slots.Length
        invariant lines == ConcatLines(slots[..i], absPath)
      {
        var segment := slots[i];
        assert slots[..i + 1][..i] == slots[..i];
        if segment.Some? && segment.value != "" {
          lines := lines + [FileLine(absPath(segment.value))];
        }
        i := i + 1;
      }
      assert slots[..i] == slots[..];
    }
  }

  // ---------------------------------------------------------------------------
  // The segment stage of main

  datatype RunOutcome =
    | NothingToDo                                // no supported file: exit code 0
    | JobFailed(index: nat, error: JobError)     // a job raised: exit code 1
    | ConcatReady(lines: seq<string>)            // the concat list to hand to the concat tool

  /**
   * Lines 171-203 of `main`: build the inventory, stop when it is empty, run one job per
   * item and record each finished one in its own slot, stop at the first job (in
   * completion order) that raised, and otherwise write the concat list. When no job
   * fails, the list has one line per item, in index order, whatever the completion order.
   */
  method Run(listing: seq<string>, mediaDir: string, sandbox: string, order: seq<nat>,
             probes: nat -> ProbeOutputs, floatText: (nat, nat) -> string, absPath: string -> string)
    returns (outcome: RunOutcome)
    requires IsCompletionOrder(order, |Inventory(listing, mediaDir)|)
    ensures var media := Inventory(listing, mediaDir);
      var jobs := Jobs(media, Processor(sandbox, probes, floatText));
      if media == [] then outcome == NothingToDo
      else match FirstFailure(order, jobs)
        case Some(i) => outcome == JobFailed(i, jobs[i].error)
        case None =>
          outcome.ConcatReady? && |outcome.lines| == |media|
          && forall k :: 0 <= k < |media| ==> outcome.lines[k] == FileLine(absPath(SegmentPath(sandbox, k)))
  {
    var mediaFiles := BuildInventory(listing, mediaDir);
    if |mediaFiles| == 0 {
      return NothingToDo;
    }
    ProcessorWritesOwnSegment(sandbox, probes, floatText);
    outcome := RunJobs(mediaFiles, sandbox, order, Processor(sandbox, probes, floatText), absPath);
  }

  /**
   * Lines 182-203 of `main` for a non-empty inventory: one job per item, each recording its
   * segment in the slot of its own index as it completes, then the concat list.
   */
  method RunJobs(mediaFiles: seq<string>, sandbox: string, order: seq<nat>,
                 process: (nat, string) -> Result<Job, JobError>, absPath: string -> string)
    returns (outcome: RunOutcome)
    requires IsCompletionOrder(order, |mediaFiles|) && WritesOwnSegment(process, sandbox)
    ensures outcome == JobsOutcome(Jobs(mediaFiles, process), order, sandbox, absPath)
  {
    var n := |mediaFiles|;
    var table := new SegmentTable(n);
    var failure := CollectSegments(table, mediaFiles, sandbox, order, process);
    if failure.Some? {
      return JobFailed(failure.value.0, failure.value.1);
    }
    AssembledInIndexOrder(order, sandbox, n, absPath);
    var lines := table.ConcatList(absPath);
    return ConcatReady(lines);
  }

  /**
   * The `as_completed` loop: each finished job records its segment in the slot of its own
   * index; the first job that raised stops the loop, and its index and error are returned.
   */
  method CollectSegments(table: SegmentTable, mediaFiles: seq<string>, sandbox: string, order: seq<nat>,
                         process: (nat, string) -> Result<Job, JobError>)
    returns (failure: Option<(nat, JobError)>)
    requires IsCompletionOrder(order, |mediaFiles|) && WritesOwnSegment(process, sandbox)
    requires table.slots[..] == Empty(|mediaFiles|)
    modifies table.slots
    ensures var jobs := Jobs(mediaFiles, process);
      match FirstFailure(order, jobs)
      case Some(i) => failure == Some((i, jobs[i].error))
      case None => failure.None? && table.slots[..] == Fill(Empty(|mediaFiles|), JobWrites(order, sandbox))
  {
    var n := |mediaFiles|;
    ghost var jobs := Jobs(mediaFiles, process);
    var k := 0;
    while k < |order|
      invariant 0 <= k <= |order|
      invariant table.slots[..] == Fill(Empty(n), JobWrites(order[..k], sandbox))
      invariant FirstFailure(order[..k], jobs).None?
    {
      var index := order[k];
      var result := process(index, mediaFiles[index]);
      assert result == jobs[index];
      if result.Err? {
        FirstFailureIsFirst(order, jobs, k);
        return Some((index, result.error));
      }
      FirstFailureNext(order, jobs, k);
      FillNext(order, k, sandbox, n);
      table.Record(index, result.value.segment);
      k := k + 1;
    }
    assert order[..k] == order;
    return None;
  }

  /**
   * What the jobs' results, taken in completion order, make of the run: the first failure
   * stops it; otherwise the concat list names every segment in index order.
   */
  function JobsOutcome(jobs: seq<Result<Job, JobError>>, order: seq<nat>, sandbox: string,
                       absPath: string -> string): RunOutcome
    requires IsCompletionOrder(order, |jobs|)
  {
    match FirstFailure(order, jobs)
    case Some(i) => JobFailed(i, jobs[i].error)
    case None => ConcatReady(SegmentLines(|jobs|, sandbox, absPath))
  }

  /** One concat line per segment, segment `k` on line `k`. */
  function SegmentLines(n: nat, sandbox: string, absPath: string -> string): (lines: seq<string>)
    ensures |lines| == n && forall k :: 0 <= k < n ==> lines[k] == FileLine(absPath(SegmentPath(sandbox, k)))
  {
    seq(n, k requires 0 <= k < n => FileLine(absPath(SegmentPath(sandbox, k))))
  }

  /** Recording job `order[k]` extends the slots by exactly that job's write. */
  lemma FillNext(order: seq<nat>, k: nat, sandbox: string, n: nat)
    requires k < |order| && order[k] < n
    ensures Fill(Empty(n), JobWrites(order[..k + 1], sandbox))
         == Fill(Empty(n), JobWrites(order[..k], sandbox))[order[k] := Some(SegmentPath(sandbox, order[k]))]
  {
    var w := JobWrites(order[..k + 1], sandbox);
    assert w[..k] == JobWrites(order[..k], sandbox);
  }

  /**
   * After every job has recorded its segment, in any completion order, the concat list
   * has one line per item and line `k` names segment `k`.
   */
  lemma AssembledInIndexOrder(order: seq<nat>, sandbox: string, n: nat, absPath: string -> string)
    requires IsCompletionOrder(order, n)
    ensures ConcatLines(Fill(Empty(n), JobWrites(order, sandbox)), absPath) == SegmentLines(n, sandbox, absPath)
  {
    AllJobsWritten(order, sandbox, n);
    var all := AllSegments(n, sandbox);
    forall i | 0 <= i < n ensures all[i].Some? && all[i].value != "" {
      SegmentPathIsNotEmpty(sandbox, i);
    }
    ConcatLinesFull(all, absPath);
  }

  lemma SegmentPathIsNotEmpty(sandbox: string, i: nat)
    ensures SegmentPath(sandbox, i) != ""
  {
    assert |SegmentName(i)| > 0;
  }
}
