/** The page-title label: the current path with one leading slash
    removed. */
module LinkUrl {

  function FormatPathName(pathName: string): (r: string)
    ensures |pathName| > 0 && pathName[0] == '/' ==> "/" + r == pathName
    ensures !(|pathName| > 0 && pathName[0] == '/') ==> r == pathName
    ensures |r| == |pathName| || |r| == |pathName| - 1
    ensures r == pathName[|pathName| - |r|..]
  {
    if |pathName| > 0 && pathName[0] == '/' then pathName[1..] else pathName
  }

  /** Only one slash goes: a path that starts with two keeps the second. */
  lemma OneSlashOnly(rest: string)
    ensures FormatPathName("//" + rest) == "/" + rest
  {
    assert ("//" + rest)[1..] == "/" + rest;
  }

  /** Formatting again strips a further slash only if one remains. */
  lemma FormatTwice(pathName: string)
    ensures FormatPathName(FormatPathName(pathName)) == FormatPathName(pathName) <==>
      !(|FormatPathName(pathName)| > 0 && FormatPathName(pathName)[0] == '/')
  {
  }
}
