/** The bounded string functions the server is written with. */
module CStrings {

  /** The first n characters. */
  function Cut(s: string, n: nat): (r: string)
    ensures r <= s && |r| <= n && (|s| <= n ==> r == s)
  {
    if |s| > n then s[..n] else s
  }

  /** strlcat: the result has fewer than size characters, unless dst had more already. */
  function Strlcat(dst: string, src: string, size: nat): string {
    if size <= |dst| then dst
    else if |dst| + |src| >= size then dst + src[..size - |dst| - 1]
    else dst + src
  }
}
