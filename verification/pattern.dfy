/** `s:generate_pattern`: the Vim search pattern for one motion key and one
    typed character. Migemo matching is switched off in this version of the
    plugin (`s:should_use_migemo` always answers 0), so the pattern is always
    a "very nomagic" (`\V`) pattern. */
module Pattern {
  import opened Wrappers
  import opened Keys
  import opened Settings

  const CaseInsensitive: string := "\\c"
  const CaseSensitive: string := "\\C"
  const VeryNoMagic: string := "\\V"
  /** Put before the target by `t`: any character, then end the match. */
  const TillPrefix: string := "\\_.\\ze"
  /** Put after the target by `T`: any character preceded by the target. */
  const TillBackSuffix: string := "\\@<=\\_."
  /** The bracket class used for characters listed in
      `g:clever_f_chars_match_any_signs`. */
  const SignClass: string := "\\[!\"#$%&'()=~|\\-^\\\\@`[\\]{};:+*<>,.?_/]"

  /** `needle` occurs in `hay` at index `j`. */
  predicate OccursAt(hay: string, needle: string, j: int) {
    0 <= j && j + |needle| <= |hay| && hay[j..j + |needle|] == needle
  }

  /** `stridx(hay, needle)` searching from index `i`. */
  function StrIdxFrom(hay: string, needle: string, i: nat): (r: int)
    requires i <= |hay|
    decreases |hay| - i
    ensures r == -1 || (i <= r && OccursAt(hay, needle, r))
    ensures r == -1 <==> forall j :: i <= j && OccursAt(hay, needle, j) ==> false
    ensures r != -1 ==> forall j :: i <= j < r ==> !OccursAt(hay, needle, j)
  {
    if i + |needle| > |hay| then -1
    else if hay[i..i + |needle|] == needle then i
    else StrIdxFrom(hay, needle, i + 1)
  }

  /** `stridx(hay, needle)`: index of the first occurrence, or -1. */
  function StrIdx(hay: string, needle: string): (r: int)
    ensures r == -1 <==> forall j :: OccursAt(hay, needle, j) ==> false
    ensures r != -1 ==> OccursAt(hay, needle, r) && forall j :: 0 <= j < r ==> !OccursAt(hay, needle, j)
  {
    StrIdxFrom(hay, needle, 0)
  }

  /** For a single character, `stridx` finds it exactly when it is in the string. */
  lemma StrIdxOfChar(hay: string, c: char)
    ensures StrIdx(hay, [c]) != -1 <==> c in hay
  {
    var r := StrIdx(hay, [c]);
    if r != -1 {
      assert hay[r..r + 1][0] == hay[r];
    }
    if c in hay {
      var j :| 0 <= j < |hay| && hay[j] == c;
      assert OccursAt(hay, [c], j);
    }
  }

  /** The case flag: `\c` when `g:clever_f_ignore_case` is set, or when
      `g:clever_f_smart_case` is set and the character has a lower-case
      letter; `\C` otherwise. */
  predicate IgnoresCase(cfg: Config, key: Key) {
    (cfg.smartCase && HasLower(KeyText(key))) || cfg.ignoreCase
  }

  /** What the pattern looks for: the sign class when the character is listed
      in `g:clever_f_chars_match_any_signs`, the character itself otherwise. */
  function Core(cfg: Config, key: Key): string {
    if StrIdx(cfg.charsMatchAnySigns, KeyText(key)) != -1 then SignClass else KeyText(key)
  }

  /** How the till motions wrap the core so the match lands beside it. */
  function Wrap(m: MapChar, core: string): string {
    if m == 't' then TillPrefix + core
    else if m == 'T' then core + TillBackSuffix
    else core
  }

  /** The case flag a pattern starts with. */
  function CaseFlag(cfg: Config, key: Key): (f: string)
    ensures f == CaseInsensitive || f == CaseSensitive
    ensures f == CaseInsensitive <==> IgnoresCase(cfg, key)
  {
    assert CaseInsensitive[1] != CaseSensitive[1];
    if IgnoresCase(cfg, key) then CaseInsensitive else CaseSensitive
  }

  /** A two-character flag, `\V`, and the rest can be read back apart. */
  lemma SplitPattern(flag: string, regex: string)
    requires |flag| == 2
    ensures var r := flag + (VeryNoMagic + regex);
      |r| >= 4 && r[..2] == flag && r[2..4] == VeryNoMagic && r[4..] == regex
  {
  }

  /** `s:generate_pattern(map, char)`. */
  function GeneratePattern(cfg: Config, m: MapChar, key: Key): (r: string)
    ensures |r| >= 4 && r[2..4] == VeryNoMagic
    ensures r[..2] == CaseInsensitive || r[..2] == CaseSensitive
    ensures r[..2] == CaseInsensitive <==> IgnoresCase(cfg, key)
    ensures r[4..] == Wrap(m, Core(cfg, key))
  {
    var regex := Wrap(m, Core(cfg, key));
    var flag := CaseFlag(cfg, key);
    SplitPattern(flag, regex);
    flag + (VeryNoMagic + regex)
  }

  /** Which till wrapping a pattern carries. */
  datatype TillKind = NoTill | TillForward | TillBackward

  function TillKindOf(m: MapChar): TillKind {
    if m == 't' then TillForward else if m == 'T' then TillBackward else NoTill
  }

  /** The pieces a generated pattern is made of. */
  datatype Parsed = Parsed(ignoreCase: bool, till: TillKind, core: string)

  /** Reads a pattern of the shape `s:generate_pattern` builds back into its
      pieces; the partner of `GeneratePattern`. */
  function ParsePattern(p: string): (r: Option<Parsed>)
    ensures r.Some? ==> |p| >= 4 && p[2..4] == VeryNoMagic
  {
    if |p| < 4 || p[2..4] != VeryNoMagic then None
    else if p[..2] != CaseInsensitive && p[..2] != CaseSensitive then None
    else
      var ci := p[..2] == CaseInsensitive;
      var body := p[4..];
      if |body| >= |TillPrefix| && body[..|TillPrefix|] == TillPrefix then
        Some(Parsed(ci, TillForward, body[|TillPrefix|..]))
      else if |body| >= |TillBackSuffix| && body[|body| - |TillBackSuffix|..] == TillBackSuffix then
        Some(Parsed(ci, TillBackward, body[..|body| - |TillBackSuffix|]))
      else
        Some(Parsed(ci, NoTill, body))
  }

  /** The core of a typed character never looks like a till wrapper. */
  lemma CoreIsPlain(cfg: Config, c: char)
    ensures var core := Core(cfg, Char(c));
            && !(|core| >= |TillPrefix| && core[..|TillPrefix|] == TillPrefix)
            && !(|core| >= |TillBackSuffix| && core[|core| - |TillBackSuffix|..] == TillBackSuffix)
            && !(|core + TillBackSuffix| >= |TillPrefix| && (core + TillBackSuffix)[..|TillPrefix|] == TillPrefix)
  {
    var core := Core(cfg, Char(c));
    assert TillPrefix[1] == '_' && TillBackSuffix[|TillBackSuffix| - 1] == '.';
    if core == SignClass {
      assert core[1] == '[';
      assert core[|core| - 1] == ']';
      assert (core + TillBackSuffix)[1] == '[';
    } else {
      assert |core| <= 1;
      if |core| == 1 {
        assert (core + TillBackSuffix)[1] == '\\';
      }
    }
  }

  /** Round trip: parsing a generated pattern recovers the case flag, the
      till wrapping the motion key asks for, and the core. */
  lemma {:induction false} ParseGenerate(cfg: Config, m: MapChar, c: char)
    ensures ParsePattern(GeneratePattern(cfg, m, Char(c)))
         == Some(Parsed(IgnoresCase(cfg, Char(c)), TillKindOf(m), Core(cfg, Char(c))))
  {
    var key := Char(c);
    var p := GeneratePattern(cfg, m, key);
    var core := Core(cfg, key);
    var body := p[4..];
    assert body == Wrap(m, core);
    CoreIsPlain(cfg, c);
    if m == 't' {
      assert body[..|TillPrefix|] == TillPrefix;
      assert body[|TillPrefix|..] == core;
    } else if m == 'T' {
      assert body[|body| - |TillBackSuffix|..] == TillBackSuffix;
      assert body[..|body| - |TillBackSuffix|] == core;
    }
  }

  /** The core is the sign class exactly when the typed character is listed
      in `g:clever_f_chars_match_any_signs`; otherwise it is the character.
      The Number 0 gives the empty text, which `stridx` finds at index 0 of
      any string, so its core is always the sign class. */
  lemma CoreOfChar(cfg: Config, c: char)
    ensures c != 0 as char ==> (Core(cfg, Char(c)) == SignClass <==> c in cfg.charsMatchAnySigns)
    ensures c != 0 as char && c !in cfg.charsMatchAnySigns ==> Core(cfg, Char(c)) == [c]
    ensures Core(cfg, Char(0 as char)) == SignClass
  {
    StrIdxOfChar(cfg.charsMatchAnySigns, c);
    assert |SignClass| > 1;
    assert OccursAt(cfg.charsMatchAnySigns, "", 0);
  }

  /** What a repeat with the Number 0 searches for: the next sign (or, for
      the till motions, the character beside it), matched case-sensitively
      unless `g:clever_f_ignore_case` is set. */
  lemma NulKeySearchesSigns(cfg: Config, m: MapChar)
    ensures var p := GeneratePattern(cfg, m, Char(0 as char));
      && p[4..] == Wrap(m, SignClass)
      && (p[..2] == CaseInsensitive <==> cfg.ignoreCase)
  {
    CoreOfChar(cfg, 0 as char);
    assert !HasLower(KeyText(Char(0 as char)));
  }

  /** For a typed character the case flag follows smart-case rules:
      `\c` iff ignore-case, or smart-case with a lower-case letter. */
  lemma CaseFlagOfChar(cfg: Config, c: char)
    ensures IgnoresCase(cfg, Char(c)) <==> cfg.ignoreCase || (cfg.smartCase && IsLowerAscii(c))
  {
    if c != 0 as char {
      assert KeyText(Char(c))[0] == c;
    }
  }
}
