/** Character sequences ended by a NUL. */
module CStrings {

  /** The characters before the first NUL. */
  function CString(s: seq<char>): (r: string)
    ensures |r| <= |s| && r == s[..|r|]
    ensures forall i | 0 <= i < |r| :: r[i] != '\0'
    ensures |r| < |s| ==> s[|r|] == '\0'
  {
    if s == [] || s[0] == '\0' then [] else [s[0]] + CString(s[1..])
  }

  predicate Terminated(s: seq<char>) {
    '\0' in s
  }

  lemma TerminatedEnds(s: seq<char>)
    requires Terminated(s)
    ensures |CString(s)| < |s| && s[|CString(s)|] == '\0'
  {
  }

  lemma CStringUnique(s: seq<char>, k: nat)
    requires k < |s| && s[k] == '\0' && forall i | 0 <= i < k :: s[i] != '\0'
    ensures CString(s) == s[..k]
  {
    assert |CString(s)| == k;
  }

  /** How many characters two strings have in common at their start, up to their ends. */
  function Common(a: seq<char>, b: seq<char>): (i: nat)
    requires Terminated(a) && Terminated(b)
    ensures i < |a| && i < |b| && (a[i] == '\0' || a[i] != b[i])
    ensures forall j | 0 <= j < i :: a[j] == b[j] && a[j] != '\0'
  {
    if a[0] == '\0' || a[0] != b[0] then 0
    else
      assert '\0' in a[1..] && '\0' in b[1..];
      var n := Common(a[1..], b[1..]);
      assert forall j | 0 < j < n + 1 :: a[j] == a[1..][j - 1] && b[j] == b[1..][j - 1];
      1 + n
  }

  method Strlen(s: seq<char>) returns (length: nat)
    requires Terminated(s)
    ensures length == |CString(s)|
  {
    TerminatedEnds(s);
    length := 0;
    while s[length] != '\0'
      invariant length <= |CString(s)|
      decreases |s| - length
    {
      length := length + 1;
    }
  }

  /** The difference of the first characters that differ, taken modulo 2 to the 32. */
  method Strcmp(a: seq<char>, b: seq<char>) returns (difference: nat)
    requires Terminated(a) && Terminated(b)
    ensures difference == (a[Common(a, b)] as int - b[Common(a, b)] as int) % 0x1_0000_0000
    ensures difference == 0 <==> CString(a) == CString(b)
  {
    EqualEnds(a, b);
    var i := 0;
    while a[i] != '\0' && a[i] == b[i]
      invariant i <= Common(a, b)
      decreases |a| - i
    {
      i := i + 1;
    }
    difference := (a[i] as int - b[i] as int) % 0x1_0000_0000;
  }

  lemma EqualEnds(a: seq<char>, b: seq<char>)
    requires Terminated(a) && Terminated(b)
    ensures a[Common(a, b)] == b[Common(a, b)] <==> CString(a) == CString(b)
  {
    var n := Common(a, b);
    TerminatedEnds(a);
    TerminatedEnds(b);
    hide Common, CString;
    if a[n] == b[n] {
      CStringUnique(a, n);
      CStringUnique(b, n);
      assert a[..n] == b[..n];
    }
  }
}
