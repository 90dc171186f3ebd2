/** `Array.prototype.sort` with a comparator: stable, and in order if the comparator is consistent. */
module Sorting {

  /** Negative, zero or positive, as the first argument belongs before, beside or behind the second. */
  type Comparator<!T> = (T, T) -> int

  /** A comparator that orders its values totally, up to ties. */
  ghost predicate IsConsistent<T(!new)>(compare: Comparator<T>) {
    && (forall a, b :: compare(a, b) < 0 <==> compare(b, a) > 0)
    && forall a, b, c :: compare(a, b) <= 0 && compare(b, c) <= 0 ==> compare(a, c) <= 0
  }

  ghost predicate IsOrdered<T>(compare: Comparator<T>, items: seq<T>) {
    forall i, j :: 0 <= i < j < |items| ==> compare(items[i], items[j]) <= 0
  }

  /** Behind the items it does not belong before. */
  function Insert<T>(compare: Comparator<T>, items: seq<T>, item: T): seq<T> {
    if items == [] || compare(items[|items| - 1], item) <= 0 then items + [item]
    else Insert(compare, items[..|items| - 1], item) + [items[|items| - 1]]
  }

  function Sort<T>(compare: Comparator<T>, items: seq<T>): seq<T> {
    if items == [] then [] else Insert(compare, Sort(compare, items[..|items| - 1]), items[|items| - 1])
  }

  lemma {:induction false} InsertAddsOne<T>(compare: Comparator<T>, items: seq<T>, item: T)
    ensures multiset(Insert(compare, items, item)) == multiset(items) + multiset{item}
  {
    if items != [] {
      InsertAddsOne(compare, items[..|items| - 1], item);
      assert items == items[..|items| - 1] + [items[|items| - 1]];
    }
  }

  lemma {:induction false} SortKeepsItems<T>(compare: Comparator<T>, items: seq<T>)
    ensures multiset(Sort(compare, items)) == multiset(items)
  {
    if items != [] {
      SortKeepsItems(compare, items[..|items| - 1]);
      InsertAddsOne(compare, Sort(compare, items[..|items| - 1]), items[|items| - 1]);
      assert items == items[..|items| - 1] + [items[|items| - 1]];
    }
  }

  lemma {:induction false} InsertKeepsOrder<T(!new)>(compare: Comparator<T>, items: seq<T>, item: T)
    requires IsConsistent(compare) && IsOrdered(compare, items)
    ensures IsOrdered(compare, Insert(compare, items, item))
  {
    if items != [] {
      var front, last := items[..|items| - 1], items[|items| - 1];
      if compare(last, item) <= 0 {
        forall i | 0 <= i < |items| ensures compare(items[i], item) <= 0 {
          assert i < |items| - 1 ==> compare(items[i], last) <= 0;
        }
        OrderedAppend(compare, items, item);
      } else {
        InsertKeepsOrder(compare, front, item);
        BeforeLast(compare, items, item);
        OrderedAppend(compare, Insert(compare, front, item), last);
      }
    }
  }

  ghost predicate NoneBehind<T>(compare: Comparator<T>, items: seq<T>, last: T) {
    forall i :: 0 <= i < |items| ==> compare(items[i], last) <= 0
  }

  lemma OrderedAppend<T>(compare: Comparator<T>, items: seq<T>, last: T)
    requires IsOrdered(compare, items) && NoneBehind(compare, items, last)
    ensures IsOrdered(compare, items + [last])
  {
  }

  lemma BeforeLast<T(!new)>(compare: Comparator<T>, items: seq<T>, item: T)
    requires IsConsistent(compare) && IsOrdered(compare, items) && items != [] && compare(items[|items| - 1], item) > 0
    ensures NoneBehind(compare, Insert(compare, items[..|items| - 1], item), items[|items| - 1])
  {
    hide Insert;
    var front, last := items[..|items| - 1], items[|items| - 1];
    InsertAddsOne(compare, front, item);
    var inserted := Insert(compare, front, item);
    forall i | 0 <= i < |inserted| ensures compare(inserted[i], last) <= 0 {
      assert inserted[i] in multiset(inserted);
      assert inserted[i] == item || inserted[i] in front;
    }
  }

  /** The items, in an order the comparator agrees with. */
  lemma {:induction false} SortOrders<T(!new)>(compare: Comparator<T>, items: seq<T>)
    requires IsConsistent(compare)
    ensures IsOrdered(compare, Sort(compare, items))
  {
    if items != [] {
      SortOrders(compare, items[..|items| - 1]);
      InsertKeepsOrder(compare, Sort(compare, items[..|items| - 1]), items[|items| - 1]);
    }
  }

  lemma TwiceCounted<T>(items: seq<T>, i: nat, j: nat)
    requires i < j < |items|
    ensures items[i] == items[j] ==> multiset(items)[items[i]] >= 2
  {
    assert items == items[..i] + [items[i]] + items[i + 1..j] + [items[j]] + items[j + 1..];
  }
}
