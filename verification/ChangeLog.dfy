/** The entries that the rewriting passes leave in their log. */
module ChangeLog {
  import opened Subtitles
  import SrtSpec

  datatype Change = Change(index: nat, timestamp: string, original: string, modified: string)

  function TimesOf(cue: Cue): string {
    SrtSpec.TimeLine(cue.start, cue.end)
  }

  // f"{name}={ms}ms"
  function Quantity(name: string, ms: int): string {
    name + "=" + SrtSpec.Padded(ms, 0) + "ms"
  }
}
