/**
 * The four DNA bases of the game, the fixed complement table of the scene
 * (its `baseMap`) and the reading of a key press as a base.
 */
module Nucleotides {
  import opened Wrappers

  datatype Base = A | T | C | G

  /** The letter a base is drawn and typed with. */
  function Letter(b: Base): (c: char)
    ensures c in "ATCG"
  {
    match b
    case A => 'A'
    case T => 'T'
    case C => 'C'
    case G => 'G'
  }

  /** The complement table: A pairs with T and C with G; no base pairs with itself. */
  function Complement(b: Base): (r: Base)
    ensures r != b
  {
    match b
    case A => T
    case T => A
    case C => G
    case G => C
  }

  /** The table is its own inverse. */
  lemma ComplementInvolutive(b: Base)
    ensures Complement(Complement(b)) == b
  {
  }

  /** Hence it is one-to-one: distinct bases have distinct complements. */
  lemma ComplementInjective(b1: Base, b2: Base)
    ensures Complement(b1) == Complement(b2) ==> b1 == b2
  {
  }

  /** Upper-casing of one character; only the ASCII letters are mapped. */
  function UpperChar(c: char): char
  {
    if 'a' <= c <= 'z' then (c as int - 32) as char else c
  }

  function ToUpper(s: string): (r: string)
    ensures |r| == |s| && forall i :: 0 <= i < |s| ==> r[i] == UpperChar(s[i])
  {
    seq(|s|, i requires 0 <= i < |s| => UpperChar(s[i]))
  }

  /**
   * The key name of a key press, upper-cased, read as a base; every other
   * key name (other letters, "Shift", "Enter", ...) is not a base.
   */
  function ParseKey(key: string): (r: Option<Base>)
    ensures forall b :: r == Some(b) <==> |key| == 1 && UpperChar(key[0]) == Letter(b)
  {
    var k := ToUpper(key);
    if k == "A" then Some(A)
    else if k == "T" then Some(T)
    else if k == "C" then Some(C)
    else if k == "G" then Some(G)
    else None
  }

  /** Exactly the eight one-letter names a, A, t, T, c, C, g, G are bases. */
  lemma ParseKeyAccepts(key: string)
    ensures ParseKey(key).Some? <==> key in {"A", "a", "T", "t", "C", "c", "G", "g"}
  {
    if |key| == 1 {
      assert key == [key[0]];
    }
  }
}
