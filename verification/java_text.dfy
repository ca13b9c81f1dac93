/**
 The few `java.lang.String` operations the validators rely on, over Dafny
 strings of Unicode scalar values.

 `trim()` and `isBlank()` disagree on purpose in Java: `trim()` strips every
 character up to U+0020 (control characters included), while `isBlank()`
 tests `Character.isWhitespace`, which also covers the Unicode space
 separators but not most control characters. `length()` counts UTF-16 code
 units, so a character outside the Basic Multilingual Plane counts twice.
 */
module JavaText {
  import opened Common

  /** `Character.isWhitespace`: the ASCII tab to carriage return, the four
      information separators, space, and the Unicode space, line and
      paragraph separators except the three non-breaking ones. */
  predicate IsWhitespace(c: char) {
    || ('\t' <= c <= '\r')
    || ('\U{1C}' <= c <= ' ')
    || c == '\U{1680}'
    || ('\U{2000}' <= c <= '\U{2006}')
    || ('\U{2008}' <= c <= '\U{200A}')
    || c == '\U{2028}'
    || c == '\U{2029}'
    || c == '\U{205F}'
    || c == '\U{3000}'
  }

  /** `String.isBlank()`: empty or whitespace only. */
  predicate IsBlank(s: string) {
    forall i :: 0 <= i < |s| ==> IsWhitespace(s[i])
  }

  /** The characters `trim()` removes from either end. */
  predicate Aparavel(c: char) {
    c <= ' '
  }

  /** Every character would be removed by `trim()`. */
  predicate SoAparaveis(s: string) {
    forall i :: 0 <= i < |s| ==> Aparavel(s[i])
  }

  /** `String.startsWith(prefix)`. */
  predicate StartsWith(s: string, prefix: string) {
    |prefix| <= |s| && s[..|prefix|] == prefix
  }

  /** Where the slice kept by `trim()` begins: the number of leading
      characters up to U+0020. */
  function Inicio(s: string): (k: nat)
    ensures k <= |s|
    ensures forall i :: 0 <= i < k ==> Aparavel(s[i])
    ensures k < |s| ==> !Aparavel(s[k])
  {
    if |s| > 0 && Aparavel(s[0]) then 1 + Inicio(s[1..]) else 0
  }

  /** Where the slice kept by `trim()` ends, scanning back from `e` but never
      past `k`, given that everything from `e` on is trimmable. */
  function FimDesde(s: string, k: nat, e: nat): (f: nat)
    requires k <= e <= |s|
    requires forall i :: e <= i < |s| ==> Aparavel(s[i])
    ensures k <= f <= e
    ensures forall i :: f <= i < |s| ==> Aparavel(s[i])
    ensures f > k ==> !Aparavel(s[f - 1])
    decreases e
  {
    if e > k && Aparavel(s[e - 1]) then FimDesde(s, k, e - 1) else e
  }

  /** Where the slice kept by `trim()` ends. */
  function Fim(s: string): (f: nat)
    ensures Inicio(s) <= f <= |s|
    ensures forall i :: f <= i < |s| ==> Aparavel(s[i])
    ensures f > Inicio(s) ==> !Aparavel(s[f - 1])
  {
    FimDesde(s, Inicio(s), |s|)
  }

  /** `String.trim()`: a contiguous slice of `s` that neither starts nor ends
      with a trimmable character; it is empty exactly when every character
      of `s` is trimmable. */
  function Trim(s: string): (r: string)
    ensures Inicio(s) + |r| <= |s| && r == s[Inicio(s)..Inicio(s) + |r|]
    ensures |r| > 0 ==> !Aparavel(r[0]) && !Aparavel(r[|r| - 1])
    ensures forall i :: Inicio(s) + |r| <= i < |s| ==> Aparavel(s[i])
    ensures |r| == 0 <==> SoAparaveis(s)
  {
    s[Inicio(s)..Fim(s)]
  }

  /** The positions of `s` holding a character outside the Basic
      Multilingual Plane, which UTF-16 stores as a surrogate pair. */
  function Suplementares(s: string): set<int> {
    set i | 0 <= i < |s| && s[i] as int > 0xFFFF
  }

  /** The supplementary positions of `s` are those of its prefix without the
      last character, plus that last position when it is supplementary. */
  lemma SuplementaresDoPrefixo(s: string)
    requires |s| > 0
    ensures |s| - 1 !in Suplementares(s[..|s| - 1])
    ensures Suplementares(s) == Suplementares(s[..|s| - 1])
                                + (if s[|s| - 1] as int > 0xFFFF then {|s| - 1} else {})
  {
  }

  /** `String.length()`: the number of UTF-16 code units, one per character
      plus one more for each supplementary character. */
  function JavaLength(s: string): (n: nat)
    ensures n == |s| + |Suplementares(s)|
    ensures |s| <= n <= 2 * |s|
    ensures (forall i :: 0 <= i < |s| ==> s[i] as int <= 0xFFFF) ==> n == |s|
  {
    if |s| == 0 then
      assert Suplementares(s) == {};
      0
    else
      SuplementaresDoPrefixo(s);
      JavaLength(s[..|s| - 1]) + (if s[|s| - 1] as int > 0xFFFF then 2 else 1)
  }

  /** The validators' `s == null || s.trim().isEmpty()`. */
  predicate NuloOuVazioAposTrim(o: Option<string>) {
    o.None? || Trim(o.value) == []
  }

  /** The validators' `s == null || s.isBlank()`. */
  predicate NuloOuBranco(o: Option<string>) {
    o.None? || IsBlank(o.value)
  }

  /** A nullable text field that survives the `trim()` check: present, with
      at least one character beyond U+0020. */
  predicate InformadoAposTrim(o: Option<string>) {
    o.Some? && !SoAparaveis(o.value)
  }

  /** A nullable text field that survives the `isBlank()` check: present,
      with some character that is not whitespace. */
  predicate InformadoNaoBranco(o: Option<string>) {
    o.Some? && exists i :: 0 <= i < |o.value| && !IsWhitespace(o.value[i])
  }

  /** The two null-or-empty tests of the validators are the negations of
      the "informed" predicates the contracts are stated with. */
  lemma TestesDeAusencia(o: Option<string>)
    ensures NuloOuVazioAposTrim(o) <==> !InformadoAposTrim(o)
    ensures NuloOuBranco(o) <==> !InformadoNaoBranco(o)
  {
  }

  /** `Character.isWhitespace` covers the ordinary and the typographic
      spaces but not the three no-break spaces U+00A0, U+2007 and U+202F,
      nor U+0000. */
  lemma EspacosSemQuebra()
    ensures IsWhitespace(' ') && IsWhitespace('\t') && IsWhitespace('\U{2003}') && IsWhitespace('\U{3000}')
    ensures !IsWhitespace('\U{A0}') && !IsWhitespace('\U{2007}') && !IsWhitespace('\U{202F}')
    ensures !IsWhitespace('\U{0}')
  {
  }

  /** `trim()` and `isBlank()` disagree both ways: an ideographic space is
      blank but survives `trim()`, and a NUL character is removed by `trim()`
      but is not blank. */
  lemma TrimDiscordaDeIsBlank()
    ensures IsBlank("\U{3000}") && InformadoAposTrim(Some("\U{3000}"))
    ensures !IsBlank("\U{0}") && !InformadoAposTrim(Some("\U{0}"))
  {
    assert !Aparavel("\U{3000}"[0]);
    assert !IsWhitespace("\U{0}"[0]);
  }

  /** `startsWith` compares the prefix character by character. */
  lemma StartsWithPorCaractere(s: string, prefix: string)
    ensures StartsWith(s, prefix) <==>
              |prefix| <= |s| && forall i :: 0 <= i < |prefix| ==> s[i] == prefix[i]
  {
  }
}
