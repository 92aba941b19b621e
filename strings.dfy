/** The one string operation the middleware uses. */
module Strings {

  /** `strings.TrimPrefix`: `s` without a leading `prefix`; `s` itself when it
      does not start with `prefix`. */
  function TrimPrefix(s: string, prefix: string): (r: string)
    ensures prefix <= s ==> prefix + r == s
    ensures !(prefix <= s) ==> r == s
    ensures |r| <= |s|
  {
    if prefix <= s then s[|prefix|..] else s
  }

  /** Trimming undoes prepending the prefix. */
  lemma TrimPrefixOfConcat(prefix: string, t: string)
    ensures TrimPrefix(prefix + t, prefix) == t
  {
  }
}
