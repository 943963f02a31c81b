/** Small shared vocabulary: options, machine widths and sums over sequences. */
module Prelude {

  datatype Option<+T> = None | Some(value: T)

  /** `usize::MAX` and `u64::MAX` on the 64-bit targets the service is built for. */
  const WORD_MAX: nat := 0xFFFF_FFFF_FFFF_FFFF

  type word = n: nat | n <= WORD_MAX

  function SatAdd(a: word, b: word): word {
    if a + b > WORD_MAX then WORD_MAX else a + b
  }

  function SatSub(a: word, b: word): word {
    if a < b then 0 else a - b
  }

  function Min(a: int, b: int): int {
    if a < b then a else b
  }

  function Max(a: int, b: int): int {
    if a < b then b else a
  }

  function MinReal(a: real, b: real): real {
    if a < b then a else b
  }

  /** Unicode White_Space, by code point. */
  predicate SpacePoint(point: int) {
    || 0x09 <= point <= 0x0D || 0x2000 <= point <= 0x200A
    || point in {0x20, 0x85, 0xA0, 0x1680, 0x2028, 0x2029, 0x202F, 0x205F, 0x3000}
  }

  /** The sum of `weight` over `items`, peeled from the end so that appending is one step. */
  ghost function Sum<T(!new)>(items: seq<T>, weight: T -> int): int {
    if items == [] then 0 else Sum(items[..|items| - 1], weight) + weight(items[|items| - 1])
  }

  lemma SumAppend<T(!new)>(items: seq<T>, item: T, weight: T -> int)
    ensures Sum(items + [item], weight) == Sum(items, weight) + weight(item)
  {
    assert (items + [item])[..|items|] == items;
  }

  lemma {:induction false} SumUpdate<T(!new)>(items: seq<T>, index: nat, item: T, weight: T -> int)
    requires index < |items|
    ensures Sum(items[index := item], weight) == Sum(items, weight) - weight(items[index]) + weight(item)
  {
    var last := |items| - 1;
    if index == last {
      assert items[index := item][..last] == items[..last];
    } else {
      SumUpdate(items[..last], index, item, weight);
      assert items[index := item][..last] == items[..last][index := item];
    }
  }

  lemma {:induction false} SumMonotone<T(!new)>(items: seq<T>, lighter: T -> int, heavier: T -> int)
    requires forall k :: 0 <= k < |items| ==> lighter(items[k]) <= heavier(items[k])
    ensures Sum(items, lighter) <= Sum(items, heavier)
  {
    if items != [] {
      SumMonotone(items[..|items| - 1], lighter, heavier);
    }
  }

  lemma {:induction false} SumConcat<T(!new)>(a: seq<T>, b: seq<T>, weight: T -> int)
    ensures Sum(a + b, weight) == Sum(a, weight) + Sum(b, weight)
  {
    if b == [] {
      assert a + b == a;
    } else {
      SumConcat(a, b[..|b| - 1], weight);
      assert (a + b)[..|a + b| - 1] == a + b[..|b| - 1];
    }
  }

  lemma SumOfOne<T(!new)>(item: T, weight: T -> int)
    ensures Sum([item], weight) == weight(item)
  {
    assert [item][..0] == [];
  }

  /** Any item can be taken out of a sequence, leaving the rest of it. */
  lemma TakeOut<T(!new)>(items: seq<T>, item: T) returns (before: seq<T>, after: seq<T>)
    requires item in items
    ensures items == before + ([item] + after)
    ensures multiset(items) == multiset(before + after) + multiset{item}
  {
    var k :| 0 <= k < |items| && items[k] == item;
    before, after := items[..k], items[k + 1..];
    assert items == before + ([item] + after);
  }

  lemma CancelItem<T(!new)>(a: multiset<T>, b: multiset<T>, item: T)
    requires a + multiset{item} == b + multiset{item}
    ensures a == b
  {
    assert a == (a + multiset{item}) - multiset{item};
    assert b == (b + multiset{item}) - multiset{item};
  }

  lemma {:induction false} SumIgnoresOrder<T(!new)>(a: seq<T>, b: seq<T>, weight: T -> int)
    requires multiset(a) == multiset(b)
    ensures Sum(a, weight) == Sum(b, weight)
    decreases |a|
  {
    if a == [] {
      assert |multiset(b)| == 0;
    } else {
      var n := |a| - 1;
      assert a == a[..n] + [a[n]];
      assert a[n] in multiset(b);
      var before, after := TakeOut(b, a[n]);
      assert multiset(a) == multiset(a[..n]) + multiset{a[n]};
      CancelItem(multiset(a[..n]), multiset(before + after), a[n]);
      SumIgnoresOrder(a[..n], before + after, weight);
      SumConcat(before, after, weight);
      SumConcat(before, [a[n]] + after, weight);
      SumConcat([a[n]], after, weight);
      SumOfOne(a[n], weight);
    }
  }
}
