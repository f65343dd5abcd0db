/**
 * The overlay caption of a photo, built from the `key=value` lines that the metadata
 * tool (`identify -format '%[EXIF:*]'`) prints: `parse_exif` and the fallback of
 * `get_exif_label` in src/photo_slideshow/to_slide_show.py.
 *
 * `ParseExif` is the line loop of the script, reassigning six locals; `Scan` is the same
 * loop as a fold, and `LastValue` is an independent description of its outcome ("the
 * value after the last `=` of the last line that sets the field").
 */
module Exif {
  import opened Wrappers
  import opened Text

  const FocalLengthKey: string := "exif:FocalLength="
  const SensitivityKey: string := "exif:PhotographicSensitivity="
  const FNumberKey: string := "exif:FNumber="
  const LensModelKey: string := "exif:LensModel="
  const DateTimeKey: string := "exif:DateTimeOriginal="
  const ExposureKey: string := "exif:ExposureTime="

  /** The caption for photos with no recognised metadata at all. */
  const NoMetadataCaption: string :=
    "ISO None Nonemm f/None None sec           None                  None"

  // ---------------------------------------------------------------------------
  // Numbers in the metadata

  /**
   * What evaluating a numeric metadata value gives: a whole number (`"28"`) or the
   * quotient of two whole numbers (`"28/10"`), which Python computes as a float.
   */
  datatype Number = Whole(n: nat) | Ratio(num: nat, den: nat)

  /** A Python integer literal without sign or underscores: no leading zero unless all zeros. */
  predicate IsIntLiteral(s: string)
  {
    |s| > 0 && AllDigits(s) && (s[0] == '0' ==> forall i :: 0 <= i < |s| ==> s[i] == '0')
  }

  /**
   * The narrow evaluator that stands for `eval` on a metadata value: it accepts an
   * integer literal, or `literal/literal` with a non-zero denominator whose quotient fits
   * a double, and nothing else.
   */
  function EvalNumber(text: string): (r: Option<Number>)
    ensures r.Some? && r.value.Ratio? ==> r.value.den > 0 && r.value.num < DoubleOverflow * r.value.den
    ensures r.Some? ==> (r.value.Ratio? <==> '/' in text)
    ensures r.Some? && r.value.Whole? ==> IsIntLiteral(text) && r.value.n == DigitsValue(text)
    ensures r.Some? && r.value.Ratio? ==>
      exists k :: 0 <= k < |text| && text[k] == '/' && IsIntLiteral(text[..k]) && IsIntLiteral(text[k + 1..])
        && r.value.num == DigitsValue(text[..k]) && r.value.den == DigitsValue(text[k + 1..])
  {
    if IndexOf(text, '/') == |text| then
      if IsIntLiteral(text) then Some(Whole(DigitsValue(text))) else None
    else
      assert text[IndexOf(text, '/')] == '/';
      EvalRatio(text[..IndexOf(text, '/')], text[IndexOf(text, '/') + 1..])
  }

  /**
   * `num/den` for two integer literals. Python's true division raises `ZeroDivisionError`
   * for a zero denominator and `OverflowError` for a quotient too large for a double.
   */
  function EvalRatio(num: string, den: string): (r: Option<Number>)
    ensures r.Some? ==> r.value.Ratio? && r.value.den > 0 && r.value.num < DoubleOverflow * r.value.den
  {
    if IsIntLiteral(num) && IsIntLiteral(den) && DigitsValue(den) > 0
       && DigitsValue(num) < DoubleOverflow * DigitsValue(den)
    then Some(Ratio(DigitsValue(num), DigitsValue(den)))
    else None
  }

  /** Decimal notation is an integer literal without a `/`. */
  lemma DecimalIsLiteral(n: nat)
    ensures IsIntLiteral(Decimal(n)) && '/' !in Decimal(n) && IndexOf(Decimal(n), '/') == |Decimal(n)|
  {
    var a := Decimal(n);
    assert forall k :: 0 <= k < |a| ==> IsDigit(a[k]);
    assert '/' !in a;
    IndexOfAbsent(a, '/');
  }

  /** The evaluator reads back every whole number written in decimal. */
  lemma EvalWholeReadsBack(n: nat)
    ensures EvalNumber(Decimal(n)) == Some(Whole(n))
  {
    DecimalIsLiteral(n);
    DecimalRoundTrip(n);
  }

  /** The evaluator reads back every fraction written in decimal, when the quotient fits a double. */
  lemma EvalRatioReadsBack(n: nat, d: nat)
    requires d > 0 && n < DoubleOverflow * d
    ensures EvalNumber(Decimal(n) + "/" + Decimal(d)) == Some(Ratio(n, d))
  {
    DecimalLiterals(n, d);
  }

  /** A fraction written in decimal is refused when it divides by zero or overflows a double. */
  lemma EvalRatioRefused(n: nat, d: nat)
    requires d == 0 || n >= DoubleOverflow * d
    ensures EvalNumber(Decimal(n) + "/" + Decimal(d)) == None
  {
    DecimalLiterals(n, d);
  }

  /** `str(n) + "/" + str(d)` is cut at its `/` into two literals that read back. */
  lemma DecimalLiterals(n: nat, d: nat)
    ensures var t := Decimal(n) + "/" + Decimal(d);
      IndexOf(t, '/') == |Decimal(n)| && t[..IndexOf(t, '/')] == Decimal(n)
      && t[IndexOf(t, '/') + 1..] == Decimal(d)
      && IsIntLiteral(Decimal(n)) && IsIntLiteral(Decimal(d))
      && DigitsValue(Decimal(n)) == n && DigitsValue(Decimal(d)) == d
  {
    DecimalIsLiteral(n);
    DecimalIsLiteral(d);
    DecimalRoundTrip(n);
    DecimalRoundTrip(d);
    SplitAtSlash(Decimal(n), Decimal(d));
  }

  /** `int(...)` of the evaluated value: Python's truncation toward zero. */
  function Truncate(x: Number): (r: nat)
    ensures x.Whole? ==> r == x.n
    ensures x.Ratio? && x.den > 0 ==> r * x.den <= x.num < (r + 1) * x.den
  {
    match x
    case Whole(n) => n
    case Ratio(num, den) => if den == 0 then 0 else num / den
  }

  // ---------------------------------------------------------------------------
  // The six caption fields

  datatype Fields = Fields(
    iso: Option<string>,
    fnumber: Option<Number>,
    focal: Option<nat>,
    exposure: Option<string>,
    lens: Option<string>,
    date: Option<string>)

  const Unset: Fields := Fields(None, None, None, None, None, None)

  datatype ExifError = MalformedNumber(line: string)

  datatype Field = Iso | FNum | Focal | Exposure | Lens | Date

  /**
   * Whether `line` assigns `field`. A `DateTimeOriginal` line assigns the lens model
   * as well as the date.
   */
  predicate Sets(line: string, field: Field)
  {
    match field
    case Iso => StartsWith(line, SensitivityKey)
    case FNum => StartsWith(line, FNumberKey)
    case Focal => StartsWith(line, FocalLengthKey)
    case Exposure => StartsWith(line, ExposureKey)
    case Lens => StartsWith(line, LensModelKey) || StartsWith(line, DateTimeKey)
    case Date => StartsWith(line, DateTimeKey)
  }

  /** A line whose numeric value, if it has one, can be evaluated. */
  predicate Evaluable(line: string)
  {
    (StartsWith(line, FocalLengthKey) || StartsWith(line, FNumberKey))
      ==> EvalNumber(AfterLast(line, '=')).Some?
  }

  /** One turn of the loop: how one line changes the fields, or the error it raises. */
  function Step(f: Fields, line: string): Result<Fields, ExifError>
  {
    if StartsWith(line, FocalLengthKey) then
      match EvalNumber(AfterLast(line, '='))
      case None => Err(MalformedNumber(line))
      case Some(x) => Ok(f.(focal := Some(Truncate(x))))
    else if StartsWith(line, SensitivityKey) then
      Ok(f.(iso := Some(AfterLast(line, '='))))
    else if StartsWith(line, FNumberKey) then
      match EvalNumber(AfterLast(line, '='))
      case None => Err(MalformedNumber(line))
      case Some(x) => Ok(f.(fnumber := Some(x)))
    else
      Ok(ExposureStep(DateStep(LensStep(f, line), line), line))
  }

  /** The lens-model `if`, which falls through to the next test. */
  function LensStep(f: Fields, line: string): Fields
  {
    if StartsWith(line, LensModelKey) then f.(lens := Some(AfterLast(line, '='))) else f
  }

  /** The date `if`, which sets the lens model too and falls through. */
  function DateStep(f: Fields, line: string): Fields
  {
    if StartsWith(line, DateTimeKey)
    then f.(date := Some(AfterLast(line, '=')), lens := Some(AfterLast(line, '=')))
    else f
  }

  /** The exposure-time `if`, the last of the chain. */
  function ExposureStep(f: Fields, line: string): Fields
  {
    if StartsWith(line, ExposureKey) then f.(exposure := Some(AfterLast(line, '='))) else f
  }

  /** The loop over all lines, starting from six unset fields; the first error stops it. */
  function Scan(lines: seq<string>): Result<Fields, ExifError>
  {
    if lines == [] then Ok(Unset)
    else
      match Scan(lines[..|lines| - 1])
      case Err(e) => Err(e)
      case Ok(f) => Step(f, lines[|lines| - 1])
  }

  /** The value after the last `=` of the last line that sets `field`, if any line does. */
  function LastValue(lines: seq<string>, field: Field): Option<string>
  {
    if lines == [] then None
    else if Sets(lines[|lines| - 1], field) then Some(AfterLast(lines[|lines| - 1], '='))
    else LastValue(lines[..|lines| - 1], field)
  }

  function NumberOf(v: Option<string>): Option<Number>
  {
    match v
    case None => None
    case Some(t) => EvalNumber(t)
  }

  function FocalOf(v: Option<string>): Option<nat>
  {
    match NumberOf(v)
    case None => None
    case Some(x) => Some(Truncate(x))
  }

  // ---------------------------------------------------------------------------
  // Properties of the scan

  lemma KeyChars(line: string, key: string)
    requires StartsWith(line, key) && |key| > 6
    ensures line[5] == key[5] && line[6] == key[6]
  {
    assert line[..|key|][5] == key[5];
    assert line[..|key|][6] == key[6];
  }

  /** No line starts with two of the six keys. */
  lemma KeysExclusive(line: string)
    ensures StartsWith(line, FocalLengthKey) ==>
      !StartsWith(line, SensitivityKey) && !StartsWith(line, FNumberKey)
      && !StartsWith(line, LensModelKey) && !StartsWith(line, DateTimeKey)
      && !StartsWith(line, ExposureKey)
    ensures StartsWith(line, SensitivityKey) ==>
      !StartsWith(line, FNumberKey) && !StartsWith(line, LensModelKey)
      && !StartsWith(line, DateTimeKey) && !StartsWith(line, ExposureKey)
    ensures StartsWith(line, FNumberKey) ==>
      !StartsWith(line, LensModelKey) && !StartsWith(line, DateTimeKey)
      && !StartsWith(line, ExposureKey)
    ensures StartsWith(line, LensModelKey) ==>
      !StartsWith(line, DateTimeKey) && !StartsWith(line, ExposureKey)
    ensures StartsWith(line, DateTimeKey) ==> !StartsWith(line, ExposureKey)
  {
    if StartsWith(line, FocalLengthKey) { KeyChars(line, FocalLengthKey); }
    if StartsWith(line, SensitivityKey) { KeyChars(line, SensitivityKey); }
    if StartsWith(line, FNumberKey) { KeyChars(line, FNumberKey); }
    if StartsWith(line, LensModelKey) { KeyChars(line, LensModelKey); }
    if StartsWith(line, DateTimeKey) { KeyChars(line, DateTimeKey); }
    if StartsWith(line, ExposureKey) { KeyChars(line, ExposureKey); }
  }

  /** One line raises exactly when its number cannot be evaluated. */
  lemma StepSucceeds(f: Fields, line: string)
    ensures Step(f, line).Ok? <==> Evaluable(line)
  {
    KeysExclusive(line);
  }

  /** How one line changes the fields: each field it sets takes the line's value, the rest keep theirs. */
  lemma StepUpdates(f: Fields, line: string)
    ensures Step(f, line).Ok? ==>
      var v := AfterLast(line, '=');
      Step(f, line).value == Fields(
        if Sets(line, Iso) then Some(v) else f.iso,
        if Sets(line, FNum) then NumberOf(Some(v)) else f.fnumber,
        if Sets(line, Focal) then FocalOf(Some(v)) else f.focal,
        if Sets(line, Exposure) then Some(v) else f.exposure,
        if Sets(line, Lens) then Some(v) else f.lens,
        if Sets(line, Date) then Some(v) else f.date)
  {
    KeysExclusive(line);
  }

  /** The loop fails exactly when some line has a numeric value the evaluator rejects. */
  lemma ScanSucceeds(lines: seq<string>)
    ensures Scan(lines).Ok? <==> forall k :: 0 <= k < |lines| ==> Evaluable(lines[k])
  {
    ScanOkIff(lines);
    AllEvaluableIff(lines);
  }

  /** Every line evaluable, stated the way the fold consumes the lines. */
  predicate AllEvaluable(lines: seq<string>)
  {
    lines == [] || (AllEvaluable(lines[..|lines| - 1]) && Evaluable(lines[|lines| - 1]))
  }

  lemma {:induction false} ScanOkIff(lines: seq<string>)
    ensures Scan(lines).Ok? <==> AllEvaluable(lines)
  {
    if lines != [] {
      var init := lines[..|lines| - 1];
      ScanOkIff(init);
      ScanOneMore(init, lines[|lines| - 1]);
      assert lines == init + [lines[|lines| - 1]];
    }
  }

  lemma {:induction false} AllEvaluableIff(lines: seq<string>)
    ensures AllEvaluable(lines) <==> forall k :: 0 <= k < |lines| ==> Evaluable(lines[k])
  {
    if lines != [] {
      var init := lines[..|lines| - 1];
      AllEvaluableIff(init);
      assert lines == init + [lines[|lines| - 1]];
      assert (forall k :: 0 <= k < |lines| ==> Evaluable(lines[k]))
        <==> (forall k :: 0 <= k < |init| ==> Evaluable(init[k])) && Evaluable(lines[|lines| - 1]);
    }
  }

  /** One more line: the scan still succeeds when it did so far and the line is evaluable. */
  lemma ScanOneMore(init: seq<string>, line: string)
    ensures Scan(init + [line]).Ok? <==> Scan(init).Ok? && Evaluable(line)
  {
    ScanUnfold(init, line);
    if Scan(init).Ok? {
      StepSucceeds(Scan(init).value, line);
    }
  }

  /** One turn of the fold. */
  lemma ScanUnfold(init: seq<string>, line: string)
    ensures Scan(init + [line]) == if Scan(init).Ok? then Step(Scan(init).value, line) else Scan(init)
  {
    assert (init + [line])[..|init|] == init;
  }

  /**
   * After a successful loop every field holds the value of the last line that sets it,
   * and a field that no line sets stays unset.
   */
  lemma {:induction false} ScanFields(lines: seq<string>)
    requires Scan(lines).Ok?
    ensures Scan(lines).value == Fields(
      LastValue(lines, Iso),
      NumberOf(LastValue(lines, FNum)),
      FocalOf(LastValue(lines, Focal)),
      LastValue(lines, Exposure),
      LastValue(lines, Lens),
      LastValue(lines, Date))
  {
    if lines != [] {
      var init, line := lines[..|lines| - 1], lines[|lines| - 1];
      assert Scan(init).Ok?;
      ScanFields(init);
      var f := Scan(init).value;
      assert Scan(lines) == Step(f, line);
      StepUpdates(f, line);
      var v := AfterLast(line, '=');
      forall field: Field
        ensures LastValue(lines, field) == if Sets(line, field) then Some(v) else LastValue(init, field)
      {
      }
    }
  }

  /** A field that no line sets stays unset. */
  lemma {:induction false} LastValueNone(lines: seq<string>, field: Field)
    ensures LastValue(lines, field) == None <==>
      forall i :: 0 <= i < |lines| ==> !Sets(lines[i], field)
  {
    if lines != [] {
      var init := lines[..|lines| - 1];
      LastValueNone(init, field);
      assert forall k :: 0 <= k < |init| ==> init[k] == lines[k];
    }
  }

  /** The last line that sets a field decides its value; earlier lines do not matter. */
  lemma {:induction false} LastValueAt(lines: seq<string>, field: Field, i: nat)
    requires i < |lines| && Sets(lines[i], field)
    requires forall j :: i < j < |lines| ==> !Sets(lines[j], field)
    ensures LastValue(lines, field) == Some(AfterLast(lines[i], '='))
  {
    var n := |lines| - 1;
    if i < n {
      var init := lines[..n];
      assert init[i] == lines[i];
      LastValueAt(init, field, i);
    }
  }

  /**
   * The lens-model quirk: when the last line that sets the lens model is a
   * `DateTimeOriginal` line, the lens slot of the caption repeats the timestamp.
   */
  lemma DateLineSetsLens(lines: seq<string>, i: nat)
    requires i < |lines| && StartsWith(lines[i], DateTimeKey)
    requires forall j :: i < j < |lines| ==> !Sets(lines[j], Lens)
    requires Scan(lines).Ok?
    ensures Scan(lines).value.lens == Scan(lines).value.date == Some(AfterLast(lines[i], '='))
  {
    ScanFields(lines);
    LastValueAt(lines, Lens, i);
    LastValueAt(lines, Date, i);
  }

  /** Once a line raises, the rest of the lines are never looked at. */
  lemma {:induction false} ScanStopsAtError(lines: seq<string>, i: nat)
    requires i <= |lines| && Scan(lines[..i]).Err?
    ensures Scan(lines) == Scan(lines[..i])
    decreases |lines| - i
  {
    if i < |lines| {
      assert lines[..i + 1][..i] == lines[..i];
      ScanStopsAtError(lines, i + 1);
    } else {
      assert lines[..i] == lines;
    }
  }

  // ---------------------------------------------------------------------------
  // The caption

  function ShowText(v: Option<string>): string
  {
    match v
    case None => "None"
    case Some(t) => t
  }

  function ShowWhole(v: Option<nat>): string
  {
    match v
    case None => "None"
    case Some(n) => Decimal(n)
  }

  /**
   * How the f-string prints an evaluated number; `floatText(num, den)` is Python's text
   * for the float `num / den`.
   */
  function ShowNumber(v: Option<Number>, floatText: (nat, nat) -> string): string
  {
    match v
    case None => "None"
    case Some(Whole(n)) => Decimal(n)
    case Some(Ratio(num, den)) => floatText(num, den)
  }

  function Caption(f: Fields, floatText: (nat, nat) -> string): (r: string)
    ensures StartsWith(r, "ISO ")
    ensures EndsWith(r, "                  " + ShowText(f.date))
  {
    "ISO " + ShowText(f.iso) + " " + ShowWhole(f.focal) + "mm f/" + ShowNumber(f.fnumber, floatText)
    + " " + ShowText(f.exposure) + " sec           " + ShowText(f.lens)
    + "                  " + ShowText(f.date)
  }

  /** What `parse_exif` returns for the tool output `exif`, or the error it raises. */
  function ExifCaption(exif: string, floatText: (nat, nat) -> string): Result<string, ExifError>
  {
    match Scan(SplitLines(exif))
    case Err(e) => Err(e)
    case Ok(f) => Ok(Caption(f, floatText))
  }

  /** `parse_exif`: the loop over the output's lines, updating one local per field. */
  method ParseExif(exif: string, floatText: (nat, nat) -> string) returns (r: Result<string, ExifError>)
    ensures r == ExifCaption(exif, floatText)
  {
    var lines := SplitLines(exif);
    var iso: Option<string> := None;
    var fv: Option<Number> := None;
    var focalLen: Option<nat> := None;
    var expTime: Option<string> := None;
    var lensModel: Option<string> := None;
    var dateTime: Option<string> := None;
    var i := 0;
    while i < |lines|
      invariant 0 <= i <= |lines|
      invariant Scan(lines[..i]) == Ok(Fields(iso, fv, focalLen, expTime, lensModel, dateTime))
    {
      var line := lines[i];
      assert lines[..i + 1][..i] == lines[..i];
      i := i + 1;
      if StartsWith(line, FocalLengthKey) {
        var x := EvalNumber(AfterLast(line, '='));
        if x.None? {
          ScanStopsAtError(lines, i);
          return Err(MalformedNumber(line));
        }
        focalLen := Some(Truncate(x.value));
        continue;
      }
      if StartsWith(line, SensitivityKey) {
        iso := Some(AfterLast(line, '='));
        continue;
      }
      if StartsWith(line, FNumberKey) {
        var x := EvalNumber(AfterLast(line, '='));
        if x.None? {
          ScanStopsAtError(lines, i);
          return Err(MalformedNumber(line));
        }
        fv := x;
        continue;
      }
      if StartsWith(line, LensModelKey) {
        lensModel := Some(AfterLast(line, '='));
      }
      if StartsWith(line, DateTimeKey) {
        dateTime := Some(AfterLast(line, '='));
        lensModel := Some(AfterLast(line, '='));
      }
      if StartsWith(line, ExposureKey) {
        expTime := Some(AfterLast(line, '='));
        continue;
      }
    }
    assert lines[..i] == lines;
    r := Ok(Caption(Fields(iso, fv, focalLen, expTime, lensModel, dateTime), floatText));
  }

  /**
   * `get_exif_label`: the caption when the metadata tool succeeds, the empty string when
   * it fails. The empty label occurs for a failing tool and for nothing else.
   */
  function ExifLabel(retcode: int, output: string, floatText: (nat, nat) -> string): (r: Result<string, ExifError>)
    ensures r == Ok("") <==> retcode != 0
    ensures retcode == 0 ==> r == ExifCaption(output, floatText)
  {
    if retcode == 0 then ExifCaption(output, floatText) else Ok("")
  }

  /** Output in which no line starts with a recognised key gives the all-`None` caption. */
  lemma NoMetadata(exif: string, floatText: (nat, nat) -> string)
    requires forall line :: line in SplitLines(exif) ==>
      !StartsWith(line, FocalLengthKey) && !StartsWith(line, SensitivityKey)
      && !StartsWith(line, FNumberKey) && !StartsWith(line, LensModelKey)
      && !StartsWith(line, DateTimeKey) && !StartsWith(line, ExposureKey)
    ensures ExifCaption(exif, floatText) == Ok(NoMetadataCaption)
  {
    var lines := SplitLines(exif);
    assert forall k :: 0 <= k < |lines| ==> lines[k] in lines;
    ScanSucceeds(lines);
    ScanFields(lines);
    forall field: Field ensures LastValue(lines, field) == None {
      LastValueNone(lines, field);
    }
    assert Scan(lines) == Ok(Unset);
    UnsetCaption(floatText);
  }

  /** With every field unset, the caption prints `None` in each of the six places. */
  lemma UnsetCaption(floatText: (nat, nat) -> string)
    ensures Caption(Unset, floatText) == NoMetadataCaption
  {
    var none := "None";
    assert ShowText(None) == none && ShowWhole(None) == none && ShowNumber(None, floatText) == none;
    calc {
      Caption(Unset, floatText);
      "ISO " + none + " " + none + "mm f/" + none + " " + none
        + " sec           " + none + "                  " + none;
      { CaptionHead(); }
      "ISO None Nonemm f/None" + " " + none + " sec           " + none + "                  " + none;
      { CaptionMiddle(); }
      "ISO None Nonemm f/None None sec           None" + "                  " + none;
      { CaptionTail(); }
      NoMetadataCaption;
    }
  }

  // The three joins of the all-`None` caption, each a separate small comparison of literals.

  lemma CaptionHead()
    ensures "ISO " + "None" + " " + "None" + "mm f/" + "None" == "ISO None Nonemm f/None"
  {
  }

  lemma CaptionMiddle()
    ensures "ISO None Nonemm f/None" + " " + "None" + " sec           " + "None"
      == "ISO None Nonemm f/None None sec           None"
  {
  }

  lemma CaptionTail()
    ensures "ISO None Nonemm f/None None sec           None" + "                  " + "None"
      == NoMetadataCaption
  {
  }
}
