/** Keys the engine receives: the motion key that triggered it and the
    character typed after it. */
module Keys {

  /** `\u` in a Vim pattern: an ASCII upper-case letter. */
  predicate IsUpperAscii(c: char) {
    'A' <= c <= 'Z'
  }

  /** `\l` in a Vim pattern: an ASCII lower-case letter. */
  predicate IsLowerAscii(c: char) {
    'a' <= c <= 'z'
  }

  /** `s =~# '\l'`: the (unanchored) match succeeds somewhere in `s`. */
  predicate HasLower(s: string) {
    exists i :: 0 <= i < |s| && IsLowerAscii(s[i])
  }

  /** A motion key accepted by `clever_f#find_with`, one of `f F t T`. */
  type MapChar = c: char | c == 'f' || c == 'F' || c == 't' || c == 'T' witness 'f'

  /** `map =~# '\u'`: the backward variants `F` and `T`. */
  predicate IsBackward(m: MapChar) {
    IsUpperAscii(m)
  }

  /** `map ==? 't'`: the till variants `t` and `T`. */
  predicate IsTill(m: MapChar) {
    m == 't' || m == 'T'
  }

  /** `s:swapcase`: `tolower` when the map is upper-case, `toupper` otherwise. */
  function SwapCase(m: MapChar): (r: MapChar)
    ensures IsBackward(r) <==> !IsBackward(m)
    ensures IsTill(r) <==> IsTill(m)
  {
    var c: char := if IsUpperAscii(m) then (m as int + 32) as char else (m as int - 32) as char;
    c
  }

  /** Swapping case twice gives the map back. */
  lemma SwapCaseInvolution(m: MapChar)
    ensures SwapCase(SwapCase(m)) == m
  {
  }

  /** The four motion keys pair up as `f`/`F` and `t`/`T`. */
  lemma SwapCasePairs()
    ensures SwapCase('f') == 'F' && SwapCase('F') == 'f'
    ensures SwapCase('t') == 'T' && SwapCase('T') == 't'
  {
  }

  /** `a:map !~# '^[fFtT]$'` inverted: the argument is exactly one motion key. */
  predicate IsMapName(s: string) {
    |s| == 1 && (s[0] == 'f' || s[0] == 'F' || s[0] == 't' || s[0] == 'T')
  }

  /** What `getchar()` returned: a Number for an ordinary character, or a
      String for a special key such as `<Left>` (whose first byte is 0x80). */
  datatype Key = Char(c: char) | Special(bytes: string)

  /** `char2nr(s)`: the code of the first character, 0 for the empty string. */
  function Char2Nr(s: string): (n: int)
    ensures |s| > 0 ==> n == s[0] as int
    ensures |s| == 0 ==> n == 0
  {
    if |s| == 0 then 0 else s[0] as int
  }

  /** The character text `s:generate_pattern` works on: `nr2char` of a
      Number, or the String itself. `nr2char(0)` is a NUL, which ends a Vim
      string, so it gives the empty string. */
  function KeyText(k: Key): (s: string)
    ensures k.Char? && k.c != 0 as char ==> s == [k.c]
    ensures k == Char(0 as char) ==> s == ""
    ensures k.Special? ==> s == k.bytes
  {
    match k
    case Char(c) => if c == 0 as char then "" else [c]
    case Special(b) => b
  }
}
