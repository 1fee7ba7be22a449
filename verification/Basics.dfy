/** What several modules share: optional values, bytes, 64-bit integers, sizes of subsets
    and sums over lists. */
module Basics {

  datatype Option<T> = None | Some(value: T)

  type Byte = x: int | 0 <= x < 256

  const INT64_MIN := -0x8000_0000_0000_0000
  const INT64_MAX := 0x7fff_ffff_ffff_ffff
  const TWO_64 := 0x1_0000_0000_0000_0000

  type Int64 = x: int | INT64_MIN <= x <= INT64_MAX

  /** Some member of a set, for loops that take the members in any order. */
  method Pick<T>(s: set<T>) returns (x: T)
    requires s != {}
    ensures x in s
  {
    x :| x in s;
  }

  lemma {:induction false} SubsetSize<T>(small: set<T>, big: set<T>)
    requires small <= big
    ensures |small| <= |big|
  {
    if small != {} {
      var x :| x in small;
      SubsetSize(small - {x}, big - {x});
    }
  }

  /** The sum of a weight over a list. */
  function Total<T>(weight: T -> nat, items: seq<T>): nat {
    if items == [] then 0 else Total(weight, items[..|items| - 1]) + weight(items[|items| - 1])
  }

  lemma TotalAppended<T>(weight: T -> nat, items: seq<T>, x: T)
    ensures Total(weight, items + [x]) == Total(weight, items) + weight(x)
  {
    assert (items + [x])[..|items + [x]| - 1] == items;
  }

  lemma {:induction false} TotalReplaced<T>(weight: T -> nat, items: seq<T>, i: nat, x: T)
    requires i < |items|
    ensures Total(weight, items[i := x]) == Total(weight, items) - weight(items[i]) + weight(x)
    ensures weight(items[i]) <= Total(weight, items)
  {
    var n := |items| - 1;
    var front := items[..n];
    if i < n {
      TotalReplaced(weight, front, i, x);
      assert items[i := x][..n] == front[i := x];
    } else {
      assert items[i := x][..n] == front;
    }
  }
}
