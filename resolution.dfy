/**
 * `get_photo_resolution` in src/photo_slideshow/to_slide_show.py: reading `width:height`
 * from what `convert <photo> -print '%w:%h' /dev/null` printed. The tool run itself is
 * not modelled; its exit code and combined output are the inputs.
 */
module Resolution {
  import opened Wrappers
  import opened Text

  datatype ResolutionError =
    | ToolFailed(output: string)   // the tool exited with a non-zero code
    | TooManyFields(line: string)  // `width, height = line.split(':')` cannot unpack

  /**
   * The last line of the stripped output. It exists exactly when something is left after
   * stripping, it is never empty, and it is the text after the last line boundary.
   */
  function LastLine(output: string): (r: Option<string>)
    ensures r.None? <==> Strip(output) == []
    ensures r.Some? ==> IsFinalLine(Strip(output), r.value)
  {
    if Strip(output) == [] then None
    else
      BreakIsSpace(Strip(output)[|Strip(output)| - 1]);
      SplitLinesLast(Strip(output));
      Some(LastOf(SplitLines(Strip(output))))
  }

  /**
   * The pair `(width, height)` as strings. A failing tool raises; no line, or a last line
   * without `:`, gives the fallback `("0", "0")`; a last line with one `:` gives the text on
   * either side of it; a last line with more than one `:` raises, because the split then
   * has more than two parts.
   */
  function GetPhotoResolution(retcode: int, output: string): (r: Result<(string, string), ResolutionError>)
    ensures retcode != 0 <==> r == Err(ToolFailed(output))
    ensures retcode == 0 && (LastLine(output).None? || ':' !in LastLine(output).value)
      ==> r == Ok(("0", "0"))
    ensures retcode == 0 && LastLine(output).Some? && ':' in LastLine(output).value ==>
      (r.Ok? <==> Count(LastLine(output).value, ':') == 1)
      && (r.Ok? ==> r.value.0 + ":" + r.value.1 == LastLine(output).value
                    && ':' !in r.value.0 && ':' !in r.value.1)
      && (r.Err? ==> r == Err(TooManyFields(LastLine(output).value)))
  {
    if retcode != 0 then Err(ToolFailed(output))
    else
      match LastLine(output)
      case None => Ok(("0", "0"))
      case Some(line) => SplitResolution(line)
  }

  /** The last line taken apart at its `:`, or the fallback when it has none. */
  function SplitResolution(line: string): (r: Result<(string, string), ResolutionError>)
    ensures ':' !in line ==> r == Ok(("0", "0"))
    ensures ':' in line ==>
      (r.Ok? <==> Count(line, ':') == 1)
      && (r.Ok? ==> r.value.0 + ":" + r.value.1 == line && ':' !in r.value.0 && ':' !in r.value.1)
      && (r.Err? ==> r == Err(TooManyFields(line)))
  {
    if ':' !in line then Ok(("0", "0"))
    else
      ColonSplit(line, IndexOf(line, ':'));
      assert line[..IndexOf(line, ':')] + ":" + line[IndexOf(line, ':') + 1..] == line;
      if ':' in line[IndexOf(line, ':') + 1..] then Err(TooManyFields(line))
      else Ok((line[..IndexOf(line, ':')], line[IndexOf(line, ':') + 1..]))
  }

  /** After the first `:` of a line there is no other exactly when the line has one `:`. */
  lemma ColonSplit(line: string, i: nat)
    requires i < |line| && line[i] == ':' && ':' !in line[..i]
    ensures Count(line, ':') == 1 <==> ':' !in line[i + 1..]
  {
    var w, h := line[..i], line[i + 1..];
    var colon: string := [':'];
    assert line == w + (colon + h);
    assert Count(colon, ':') == 1 by {
      assert colon[..0] == [];
    }
    CountAppend(colon, h, ':');
    CountAppend(w, colon + h, ':');
    CountZero(w, ':');
    CountZero(h, ':');
  }
}
