/** C strings as the server sees them: bytes other than NUL, the terminator left implicit. */
module CStrings {
  /** A non-NUL byte. */
  type CChar = c: char | 0 < c as int < 256 witness 'a'

  type CString = seq<CChar>

  /** The size of the server's path buffers. */
  const MAX_TNFSPATH := 256

  /** tolower() in the "C" locale. */
  function ToLower(c: CChar): (r: CChar)
    ensures 'A' <= c <= 'Z' ==> r as int == c as int + 32
    ensures !('A' <= c <= 'Z') ==> r == c
  {
    if 'A' <= c <= 'Z' then (c as int + 32) as char else c
  }

  /** The int value of a `char` after promotion; plain `char` is signed. */
  function Promote(c: CChar): (r: int)
    ensures -128 <= r < 128 && r % 256 == c as int
  {
    if c as int < 128 then c as int else c as int - 256
  }

  // ---------- Texts that differ in case only ----------

  /** The same character, or one letter in its two cases. */
  predicate SameLetter(c: CChar, d: CChar) {
    || c == d
    || ('A' <= c <= 'Z' && d as int == c as int + 32)
    || ('A' <= d <= 'Z' && c as int == d as int + 32)
  }

  predicate SameWord(s: CString, t: CString) {
    |s| == |t| && forall k :: 0 <= k < |s| ==> SameLetter(s[k], t[k])
  }

  /** What tolower() identifies are the two cases of a letter. */
  lemma LowerIsCase(c: CChar, d: CChar)
    ensures ToLower(c) == ToLower(d) <==> SameLetter(c, d)
  {
  }
}
