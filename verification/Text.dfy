/**
 Character sequences laid out on a page: an unbounded run of cells, 80 to a row,
 that is blank wherever nothing was written.
 */
module Text {

  function Max(a: int, b: int): int {
    if a < b then b else a
  }

  function Min(a: int, b: int): int {
    if a < b then a else b
  }

  predicate IsDigit(c: char) {
    '0' <= c <= '9'
  }

  /** The character of page cell i: blank past the end of what was written. */
  function At(page: string, i: nat): char {
    if i < |page| then page[i] else ' '
  }

  function Spaces(n: nat): (s: string)
    ensures |s| == n
    ensures forall i | 0 <= i < n :: s[i] == ' '
  {
    seq(n, _ => ' ')
  }

  /** The page after printing s from position pos on. */
  function Overwrite(page: string, pos: nat, s: string): (r: string)
    requires pos <= |page|
    ensures |r| == Max(|page|, pos + |s|)
    ensures forall i | 0 <= i < |r| ::
      r[i] == if pos <= i < pos + |s| then s[i - pos] else page[i]
  {
    if pos + |s| <= |page| then page[..pos] + s + page[pos + |s|..] else page[..pos] + s
  }

  /** The position at which the row after the one holding pos begins. */
  function NextRow(pos: nat): nat {
    (pos / 80 + 1) * 80
  }

  /** What a newline makes of a page that ends at the cursor: the row is filled with blanks. */
  function FillRow(page: string): (r: string)
    ensures |r| == NextRow(|page|)
    ensures page <= r
    ensures forall i :: 0 <= i ==> At(r, i) == At(page, i)
  {
    page + Spaces(NextRow(|page|) - |page|)
  }

  lemma OverwriteTwice(page: string, pos: nat, s: string, t: string)
    requires pos <= |page|
    ensures Overwrite(Overwrite(page, pos, s), pos + |s|, t) == Overwrite(page, pos, s + t)
  {
  }

  /** Printing c and then what followed the cursor inserts c. */
  lemma OverwriteInserts(before: string, text: string, k: nat, c: char)
    requires k <= |text|
    ensures Overwrite(before + text, |before| + k, [c] + text[k..]) == before + (text[..k] + [c] + text[k..])
  {
  }

  /** Printing the text after j at k instead, then blanks up to where it ended, cuts out what was between. */
  lemma OverwriteCuts(before: string, text: string, page: string, k: nat, j: nat)
    requires k <= j <= |text| && |page| == |before| + |text|
    requires page[..|before| + k] == before + text[..k]
    ensures Overwrite(page, |before| + k, text[j..] + Spaces(j - k)) == before + (text[..k] + text[j..]) + Spaces(j - k)
  {
  }

  lemma Associate<T>(a: seq<T>, b: seq<T>, c: seq<T>)
    ensures (a + b) + c == a + (b + c)
  {
  }
}
