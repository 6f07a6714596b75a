/** The array primitives the source relies on: zero allocation, `slice` and `splice`. */
module Bytes {
  import opened DataTypes

  function Min(a: int, b: int): int { if a <= b then a else b }

  /** The contents of `new Uint8Array(n)`. */
  function Zeros(n: nat): (r: seq<Byte>)
    ensures |r| == n
    ensures forall i :: 0 <= i < n ==> r[i] == 0
  {
    seq(n, _ => 0)
  }

  /**
   * `slice(start, end)` on an array or `Uint8Array` with non-negative bounds:
   * both bounds are clamped to the length, and an empty result when `end <= start`.
   */
  function Slice<T>(s: seq<T>, start: nat, end: nat): (r: seq<T>)
    ensures start <= end <= |s| ==> r == s[start..end]
    ensures |r| <= |s|
    ensures |s| <= start ==> r == []
  {
    var a := Min(start, |s|);
    var b := Min(end, |s|);
    if b <= a then [] else s[a..b]
  }

  /**
   * `Array.prototype.splice(start, deleteCount, ...items)` on a copy, for non-negative
   * arguments: the start is clamped to the length and the delete count to what is left.
   * The array grows or shrinks when `|items|` differs from the number deleted.
   */
  function Splice<T>(s: seq<T>, start: nat, deleteCount: nat, items: seq<T>): (r: seq<T>)
    ensures start + deleteCount <= |s| ==> r == s[..start] + items + s[start + deleteCount..]
    ensures start + deleteCount <= |s| && |items| == deleteCount ==> |r| == |s|
  {
    var a := Min(start, |s|);
    var d := Min(deleteCount, |s| - a);
    s[..a] + items + s[a + d..]
  }

  /** A splice that replaces an in-bounds window by as many items is an in-place overwrite. */
  lemma SpliceOverwrites<T>(s: seq<T>, start: nat, items: seq<T>)
    requires start + |items| <= |s|
    ensures |Splice(s, start, |items|, items)| == |s|
    ensures Splice(s, start, |items|, items)[start..start + |items|] == items
    ensures forall i :: 0 <= i < |s| && !(start <= i < start + |items|) ==>
              Splice(s, start, |items|, items)[i] == s[i]
  {
    var r := Splice(s, start, |items|, items);
    assert r == s[..start] + items + s[start + |items|..];
    forall i | 0 <= i < |s| && !(start <= i < start + |items|)
      ensures r[i] == s[i]
    {
      if i < start {
        assert r[i] == s[..start][i];
      } else {
        assert r[i] == s[start + |items|..][i - start - |items|];
      }
    }
  }

  /** `new Uint8Array(array)`: a fresh buffer holding the given bytes. */
  method ToArray(s: seq<Byte>) returns (a: array<Byte>)
    ensures fresh(a) && a[..] == s
  {
    a := new Byte[|s|](i requires 0 <= i < |s| => s[i]);
  }
}
