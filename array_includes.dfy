/**
 * The `Array.prototype.includes` polyfill: section 22.1.3.11 of ECMA-262
 * (ECMAScript 2016), steps 1 to 8, over a generic element type whose
 * equality stands for SameValueZero.
 */
module ArrayIncludes {

  /**
   * Steps 5 and 6: the first index searched. A non-negative fromIndex is
   * used as is; a negative one counts back from the end, and is clamped at 0.
   */
  function StartIndex(len: nat, n: int): nat {
    var k := if n >= 0 then n else len - (-n);
    if k < 0 then 0 else k
  }

  /**
   * `o.includes(searchElement, fromIndex)`: false for an empty array, and
   * otherwise true exactly when some element at or after the start index
   * equals searchElement. An omitted fromIndex is passed as 0.
   */
  method Includes<T(==)>(o: seq<T>, searchElement: T, fromIndex: int) returns (r: bool)
    ensures |o| == 0 ==> !r
    ensures r <==> exists k :: StartIndex(|o|, fromIndex) <= k < |o| && o[k] == searchElement
  {
    // The length, read once.
    var len := |o|;
    // An empty array holds nothing.
    if len == 0 {
      return false;
    }
    // fromIndex as an integer.
    var n := fromIndex;
    // The first index to look at: see StartIndex.
    var k: int := if n >= 0 then n else len - (-n);
    if k < 0 {
      k := 0;
    }
    // Scan upwards; every index passed so far held something else.
    while k < len
      invariant StartIndex(len, fromIndex) <= k
      invariant forall j :: StartIndex(len, fromIndex) <= j < k && j < len ==> o[j] != searchElement
      decreases len - k
    {
      if o[k] == searchElement {
        return true;
      }
      k := k + 1;
    }
    // No index from the start on held the element.
    return false;
  }

  /** Without a fromIndex, includes is sequence membership. */
  lemma IncludesFromZero<T>(o: seq<T>, x: T)
    ensures (exists k :: StartIndex(|o|, 0) <= k < |o| && o[k] == x) <==> x in o
  {
    if x in o {
      var k :| 0 <= k < |o| && o[k] == x;
    }
  }
}
