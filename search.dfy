/** The `find`/`findIndex` by id that the three stores share. */
module Search {

  /** The position of the first element whose key is `x`, or -1 when no
      element has that key. */
  function FirstIndex<T>(s: seq<T>, key: T -> int, x: int): (k: int)
    ensures -1 <= k < |s|
    ensures k == -1 <==> forall j | 0 <= j < |s| :: key(s[j]) != x
    ensures k >= 0 ==> key(s[k]) == x && forall j | 0 <= j < k :: key(s[j]) != x
  {
    if s == [] then -1
    else if key(s[0]) == x then 0
    else
      var k := FirstIndex(s[1..], key, x);
      if k == -1 then -1 else k + 1
  }
}
