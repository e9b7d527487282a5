/** Bytes, byte strings and powers of two, shared by the file, the encodings and the content pipeline. */
module ByteStrings {
  newtype Byte = x: int | 0 <= x < 256

  type Bytes = seq<Byte>

  /** Bytewise order, a proper prefix first. */
  predicate BytesLess(s: Bytes, t: Bytes) {
    t != [] && (s == [] || s[0] < t[0] || (s[0] == t[0] && BytesLess(s[1..], t[1..])))
  }

  function Exp2(p: nat): nat {
    if p == 0 then 1 else 2 * Exp2(p - 1)
  }

  const CAPITALS: string := "ABCDEFGHIJKLMNOPQRSTUVWXYZ"
  const SMALLS: string := "abcdefghijklmnopqrstuvwxyz"
  const FIGURES: string := "0123456789"

  /** The codes of letters and figures run from the first to the last. */
  lemma LetterCodes(v: nat)
    requires v < 26
    ensures |CAPITALS| == 26 && CAPITALS[v] as int == 65 + v
    ensures |SMALLS| == 26 && SMALLS[v] as int == 97 + v
  {
  }

  lemma FigureCodes(v: nat)
    requires v < 10
    ensures |FIGURES| == 10 && FIGURES[v] as int == 48 + v
  {
  }
}
