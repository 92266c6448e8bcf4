/** Names and paths shared by the Drive transfer script and the local restructuring script. */
module Media {

  /** The extension allow-list; both scripts declare the same tuple. */
  const VIDEO_EXTENSIONS: seq<string> := [".mp4", ".mov", ".avi", ".mkv"]

  /** `str.lower` on one character, restricted to ASCII letters. */
  function LowerChar(c: char): char
  {
    if 'A' <= c <= 'Z' then (c as int + 32) as char else c
  }

  /** `str.lower`, character by character. */
  function Lower(s: string): (r: string)
    ensures |r| == |s|
    ensures forall i :: 0 <= i < |s| ==> r[i] == LowerChar(s[i])
  {
    if s == [] then [] else [LowerChar(s[0])] + Lower(s[1..])
  }

  /** `str.endswith` with a single suffix. */
  predicate EndsWith(s: string, suffix: string)
  {
    |suffix| <= |s| && s[|s| - |suffix|..] == suffix
  }

  /** `name.lower().endswith(VIDEO_EXTENSIONS)`: some allowed extension ends the lower-cased name. */
  predicate IsVideoName(name: string)
  {
    exists ext :: ext in VIDEO_EXTENSIONS && EndsWith(Lower(name), ext)
  }

  /** `os.path.join(a, b)` for a relative `b`, on a POSIX system. */
  function Join(dir: string, name: string): string
  {
    dir + "/" + name
  }
}
