/** Overlapping copies inside one buffer. */
module Mem {

  /**
   dest and src are offsets into the same buffer; the ranges may overlap. Copying upward
   when dest is below src, and downward otherwise, reads every element before writing it.
   */
  method Memmove<T>(a: array<T>, dest: nat, src: nat, n: nat)
    requires dest + n <= a.Length && src + n <= a.Length
    modifies a
    ensures forall i | 0 <= i < a.Length ::
      a[i] == if dest <= i < dest + n then old(a[src + (i - dest)]) else old(a[i])
  {
    if dest < src {
      for i := 0 to n
        invariant forall j | 0 <= j < a.Length ::
          a[j] == if dest <= j < dest + i then old(a[src + (j - dest)]) else old(a[j])
      {
        a[dest + i] := a[src + i];
      }
    } else if dest > src {
      for i := n downto 0
        invariant forall j | 0 <= j < a.Length ::
          a[j] == if dest + i <= j < dest + n then old(a[src + (j - dest)]) else old(a[j])
      {
        a[dest + i] := a[src + i];
      }
    }
  }
}
