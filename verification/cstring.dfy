/**
 This module models the C library's `strcmp` on the NUL-free contents of two
 C strings: characters are compared by code, and a string that is a proper
 prefix of the other sorts first (its terminator is smaller than any character).
 */
module CString {

  /** The sign of `strcmp(a, b)`: -1, 0 or 1. */
  function Compare(a: string, b: string): (r: int)
    ensures -1 <= r <= 1
    ensures r == 0 <==> a == b
    decreases |a|
  {
    if |a| == 0 && |b| == 0 then 0
    else if |a| == 0 then -1
    else if |b| == 0 then 1
    else if a[0] < b[0] then -1
    else if a[0] > b[0] then 1
    else
      assert a == [a[0]] + a[1..] && b == [b[0]] + b[1..];
      Compare(a[1..], b[1..])
  }
}
