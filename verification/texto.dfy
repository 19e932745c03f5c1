/** The text matching the repositories rely on: comparison ignoring case and
    the `LIKE '%p%'` substring test. Case folding is modelled on ASCII letters
    only. */
module Texto {

  function MayusculaDe(c: char): char
  {
    if 'a' <= c <= 'z' then (c as int - 'a' as int + 'A' as int) as char else c
  }

  function Mayusculas(s: string): (r: string)
    ensures |r| == |s|
  {
    seq(|s|, i requires 0 <= i < |s| => MayusculaDe(s[i]))
  }

  predicate IgualesIgnorandoCaso(a: string, b: string)
  {
    Mayusculas(a) == Mayusculas(b)
  }

  /** `patron` occurs in `s` as a contiguous block. */
  predicate Contiene(s: string, patron: string)
  {
    exists i | 0 <= i <= |s| :: patron <= s[i..]
  }

  predicate ContieneIgnorandoCaso(s: string, patron: string)
  {
    Contiene(Mayusculas(s), Mayusculas(patron))
  }

  /** The empty pattern occurs in every string, so an empty name filter keeps everything. */
  lemma PatronVacio(s: string)
    ensures Contiene(s, "")
    ensures ContieneIgnorandoCaso(s, "")
  {
    assert "" <= s[0..];
    assert Mayusculas("") == "";
    assert "" <= Mayusculas(s)[0..];
  }
}
