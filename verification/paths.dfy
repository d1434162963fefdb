/** The two helpers of Node's `path` module the editor relies on: `basename`
    for the window title and the save dialog, `extname` for choosing the
    language of an opened file.  Both work on the separators of a Windows path
    ('/' and '\'); see README for what of Node's behaviour is simplified. */
module Paths {

  predicate IsSeparator(c: char) {
    c == '/' || c == '\\'
  }

  /** The last component of a path: the longest suffix without a separator. */
  function Basename(p: string): (name: string)
    ensures |name| <= |p|
    ensures forall i :: 0 <= i < |name| ==> name[i] == p[|p| - |name| + i]
    ensures forall i :: 0 <= i < |name| ==> !IsSeparator(name[i])
    ensures |name| < |p| ==> IsSeparator(p[|p| - |name| - 1])
    decreases |p|
  {
    if p == [] then []
    else if IsSeparator(p[|p| - 1]) then []
    else Basename(p[..|p| - 1]) + [p[|p| - 1]]
  }

  /** Index of the last '.' in `s`, or -1 when there is none. */
  function LastDot(s: string): (i: int)
    ensures -1 <= i < |s|
    ensures 0 <= i ==> s[i] == '.'
    ensures forall j :: i < j < |s| ==> s[j] != '.'
    decreases |s|
  {
    if s == [] then -1
    else if s[|s| - 1] == '.' then |s| - 1
    else LastDot(s[..|s| - 1])
  }

  /** The extension of the last path component, dot included: empty when the
      component has no dot, when its only dot leads it (".bashrc") and for
      "..". */
  function Extname(p: string): (ext: string)
    ensures |ext| > 0 ==> ext[0] == '.' && |ext| < |Basename(p)|
    ensures |ext| > 0 ==> Basename(p)[|Basename(p)| - |ext|..] == ext
    ensures forall j :: 0 < j < |ext| ==> ext[j] != '.' && !IsSeparator(ext[j])
    ensures |ext| == 0 <==> LastDot(Basename(p)) <= 0 || Basename(p) == ".."
  {
    var name := Basename(p);
    var dot := LastDot(name);
    if dot <= 0 || name == ".." then "" else name[dot..]
  }
}
