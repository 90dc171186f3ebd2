/** COUNT(*) over the elements of a sequence that satisfy a condition. */
module Counting {

  function CountWhere<T>(s: seq<T>, p: T -> bool): nat {
    if s == [] then 0 else (if p(s[0]) then 1 else 0) + CountWhere(s[1..], p)
  }

  lemma {:induction false} CountOfConcat<T>(s: seq<T>, t: seq<T>, p: T -> bool)
    ensures CountWhere(s + t, p) == CountWhere(s, p) + CountWhere(t, p)
  {
    if s == [] {
      assert s + t == t;
    } else {
      CountOfConcat(s[1..], t, p);
      assert (s + t)[1..] == s[1..] + t;
    }
  }

  lemma {:induction false} CountAgrees<T>(s: seq<T>, p: T -> bool, q: T -> bool)
    requires forall x :: x in s ==> p(x) == q(x)
    ensures CountWhere(s, p) == CountWhere(s, q)
  {
    if s != [] {
      CountAgrees(s[1..], p, q);
    }
  }

  lemma {:induction false} CountIsPositive<T>(s: seq<T>, p: T -> bool)
    ensures CountWhere(s, p) > 0 <==> exists x :: x in s && p(x)
  {
    if s != [] {
      CountIsPositive(s[1..], p);
      assert forall x :: x in s <==> x == s[0] || x in s[1..];
    }
  }

  lemma {:induction false} CountIsDisjointSum<T>(s: seq<T>, p: T -> bool, q: T -> bool, r: T -> bool)
    requires forall x :: x in s ==> (p(x) <==> q(x) || r(x)) && !(q(x) && r(x))
    ensures CountWhere(s, p) == CountWhere(s, q) + CountWhere(s, r)
  {
    if s != [] {
      CountIsDisjointSum(s[1..], p, q, r);
    }
  }

  lemma CountWithout<T>(t: seq<T>, i: nat, p: T -> bool)
    requires i < |t|
    ensures CountWhere(t, p) == (if p(t[i]) then 1 else 0) + CountWhere(t[..i] + t[i + 1..], p)
  {
    var before, after := t[..i], t[i + 1..];
    assert t == before + t[i..];
    CountOfConcat(before, t[i..], p);
    assert t[i..][1..] == after;
    CountOfConcat(before, after, p);
  }

  lemma MultisetWithout<T>(t: seq<T>, i: nat)
    requires i < |t|
    ensures multiset(t[..i] + t[i + 1..]) == multiset(t) - multiset{t[i]}
  {
    assert t == t[..i] + ([t[i]] + t[i + 1..]);
  }

  /** The count depends on the elements and their multiplicity, not on their order. */
  lemma {:induction false} CountIgnoresOrder<T>(s: seq<T>, t: seq<T>, p: T -> bool)
    requires multiset(s) == multiset(t)
    ensures CountWhere(s, p) == CountWhere(t, p)
  {
    if s == [] {
      assert |multiset(t)| == 0;
    } else {
      assert s[0] in multiset(t);
      var i :| 0 <= i < |t| && t[i] == s[0];
      CountWithout(t, i, p);
      MultisetWithout(t, i);
      assert s == [s[0]] + s[1..];
      assert multiset(s[1..]) == multiset(s) - multiset{s[0]};
      CountIgnoresOrder(s[1..], t[..i] + t[i + 1..], p);
    }
  }
}
