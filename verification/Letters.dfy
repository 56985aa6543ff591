/** ASCII letters, small and capital. */
module Letters {
  const SMALL: string := "abcdefghijklmnopqrstuvwxyz"
  const CAPITAL: string := "ABCDEFGHIJKLMNOPQRSTUVWXYZ"

  /** The letters at one place of the alphabet. */
  predicate LetterAt(k: nat, c: char) {
    k < 26 && (c == SMALL[k] || c == CAPITAL[k])
  }

  /** The same character, or the same letter of the alphabet, small or capital. */
  ghost predicate SameLetter(a: char, b: char) {
    a == b || exists k :: LetterAt(k, a) && LetterAt(k, b)
  }

  /** The same text, but for small and capital letters. */
  ghost predicate SameText(a: string, b: string) {
    |a| == |b| && forall i :: 0 <= i < |a| ==> SameLetter(a[i], b[i])
  }

  lemma SmallAt(k: nat)
    requires k < 26
    ensures SMALL[k] as int == 'a' as int + k
  {
  }

  lemma CapitalAt(k: nat)
    requires k < 26
    ensures CAPITAL[k] as int == 'A' as int + k
  {
  }

  lemma Alphabet(k: nat)
    requires k < 26
    ensures SMALL[k] as int == 'a' as int + k && CAPITAL[k] as int == 'A' as int + k
  {
    SmallAt(k);
    CapitalAt(k);
  }

  lemma SmallAre(c: char)
    ensures c in SMALL <==> 'a' <= c <= 'z'
  {
    if k :| 0 <= k < |SMALL| && SMALL[k] == c { Alphabet(k); }
    if 'a' <= c <= 'z' { Alphabet((c - 'a') as nat); }
  }

  lemma CapitalAre(c: char)
    ensures c in CAPITAL <==> 'A' <= c <= 'Z'
  {
    if k :| 0 <= k < |CAPITAL| && CAPITAL[k] == c { Alphabet(k); }
    if 'A' <= c <= 'Z' { Alphabet((c - 'A') as nat); }
  }

  lemma LetterIs(k: nat, c: char)
    ensures LetterAt(k, c) <==> k < 26 && (c as int == 'a' as int + k || c as int == 'A' as int + k)
  {
    if k < 26 { Alphabet(k); }
  }
}
