/** The few string operations of the program, with the plain space as the only whitespace. */
module Strings {

  import opened Wrappers

  /** The first position from `i` on that is not a space. */
  function Start(s: string, i: nat): (r: nat)
    requires i <= |s|
    ensures i <= r <= |s| && (r < |s| ==> s[r] != ' ')
    ensures forall j :: i <= j < r ==> s[j] == ' '
    decreases |s| - i
  {
    if i < |s| && s[i] == ' ' then Start(s, i + 1) else i
  }

  /** The end of the part of `s[..n]` that remains when trailing occurrences of `c` are dropped. */
  function End(s: string, c: char, n: nat): (r: nat)
    requires n <= |s|
    ensures r <= n && (r > 0 ==> s[r - 1] != c)
    ensures forall j :: r <= j < n ==> s[j] == c
  {
    if n > 0 && s[n - 1] == c then End(s, c, n - 1) else n
  }

  function StripRight(s: string, c: char): string {
    s[..End(s, c, |s|)]
  }

  function StripLeft(s: string): string {
    s[Start(s, 0)..]
  }

  function Strip(s: string): string {
    StripLeft(StripRight(s, ' '))
  }

  predicate EndsWith(s: string, suffix: string) {
    |suffix| <= |s| && s[|s| - |suffix|..] == suffix
  }

  function Spaces(n: nat): (s: string)
    ensures |s| == n && forall i :: 0 <= i < n ==> s[i] == ' '
  {
    seq(n, _ => ' ')
  }
}
