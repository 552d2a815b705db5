/**
 * The scalar values of the language as data (the PHP value classes), and the
 * byte length PHP's `strlen` reports for a text payload.
 */
module Values {

  newtype byte = x: int | 0 <= x < 256

  /**
   * A language value. `Regex` keeps the internal, delimited representation
   * that RegexValue stores in its `value` property; `Other` stands for every
   * kind this model does not look into (functions, modules, lists, ...).
   */
  datatype Value =
    | Null
    | Bool(truth: bool)
    | Number(digits: string)
    | String(text: string)
    | Bytes(data: seq<byte>)
    | Regex(value: string)
    | NotImplemented
    | Other(typeName: string)

  /** Number of bytes the UTF-8 encoding of `c` takes. */
  function CharWidth(c: char): (w: nat)
    ensures 1 <= w <= 4
  {
    if c as int < 0x80 then 1
    else if c as int < 0x800 then 2
    else if c as int < 0x1_0000 then 3
    else 4
  }

  /**
   * Length of the UTF-8 encoding of `s`: what `strlen` returns for a PHP
   * string holding `s`. It is never below the number of characters and never
   * above four bytes per character.
   */
  function Utf8Length(s: string): (n: nat)
    ensures |s| <= n <= 4 * |s|
  {
    if s == [] then 0 else CharWidth(s[0]) + Utf8Length(s[1..])
  }

  /** On ASCII text the byte length is the character count. */
  lemma {:induction false} AsciiUtf8Length(s: string)
    requires forall i :: 0 <= i < |s| ==> s[i] as int < 0x80
    ensures Utf8Length(s) == |s|
  {
    if s != [] {
      AsciiUtf8Length(s[1..]);
    }
  }
}
