/** The integrity oracle: what the mirror tool learns from `sigtool -i` (clamavmirror.py
    `get_local_version` and `verify_sigfile`). The tool itself is not modelled: its output for a
    file's content is an oracle `sigtool: string -> seq<string>` giving the lines `readline()`
    returns, and its exit status an oracle `verify: string -> bool`. */
module Integrity {
  import opened Wrappers
  import opened Text
  import opened Paths

  const VersionTag: string := "Version:"

  /** The index of the first line, before the end of output, that starts with `Version:`. */
  function FindVersionLine(lines: seq<string>): (r: Option<nat>)
    ensures r.Some? ==> r.value < Eof(lines) && StartsWith(lines[r.value], VersionTag)
    ensures r.Some? ==> forall j :: 0 <= j < r.value ==> !StartsWith(lines[j], VersionTag)
    ensures r.None? ==> forall j :: 0 <= j < Eof(lines) ==> !StartsWith(lines[j], VersionTag)
    decreases |lines|
  {
    if lines == [] || lines[0] == "" then None
    else if StartsWith(lines[0], VersionTag) then Some(0)
    else match FindVersionLine(lines[1..])
      case None => None
      case Some(i) => Some(i + 1)
  }

  /** The version `get_local_version` reads from `sigtool -i` output: the second word of the first
      `Version:` line, or None when there is no such line; IndexError when that line has one word. */
  function VersionOfOutput(lines: seq<string>): (r: Result<Option<string>, Crash>)
    ensures r == Ok(None) <==> FindVersionLine(lines).None?
    ensures r.Err? ==> r.error == IndexError && |Words(lines[FindVersionLine(lines).value])| < 2
    ensures r.Ok? && r.value.Some? ==>
              var words := Words(lines[FindVersionLine(lines).value]);
              |words| >= 2 && r.value.value == words[1] && r.value.value != "" && NoSpace(r.value.value)
  {
    match FindVersionLine(lines)
    case None => Ok(None)
    case Some(i) =>
      var words := Words(lines[i]);
      if |words| < 2 then Err(IndexError)
      else
        RStripWord(lines[i]);
        assert Words(lines[i])[1] in Words(lines[i]);
        Ok(Some(RStrip(words[1])))
  }

  /** `get_local_version(dir, sig)`: the version of `<sig>.cvd` in `dir`; None when the file is
      missing or sigtool prints no `Version:` line. */
  function LocalVersion(dir: map<string, string>, sig: string, sigtool: string -> seq<string>): (r: Result<Option<string>, Crash>)
    ensures r == Ok(None) <==> CvdName(sig) !in dir || FindVersionLine(sigtool(dir[CvdName(sig)])).None?
    ensures r.Ok? && r.value.Some? ==> CvdName(sig) in dir && r.value.value != ""
    ensures r.Err? ==> r.error == IndexError
  {
    if CvdName(sig) in dir then VersionOfOutput(sigtool(dir[CvdName(sig)])) else Ok(None)
  }
}
