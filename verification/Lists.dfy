/** List operations shared by the in-memory stores: filtering, and what it keeps. */
module Lists {

  /** The elements of `s` that satisfy `keep`, in order. */
  function Filter<T(!new)>(keep: T -> bool, s: seq<T>): (r: seq<T>)
    ensures |r| <= |s|
    ensures forall x :: x in r <==> x in s && keep(x)
  {
    if s == [] then []
    else if keep(s[0]) then [s[0]] + Filter(keep, s[1..])
    else Filter(keep, s[1..])
  }

  /** Every two elements, in order of position, are related. */
  ghost predicate Pairwise<T(!new)>(related: (T, T) -> bool, s: seq<T>) {
    forall i, j :: 0 <= i < j < |s| ==> related(s[i], s[j])
  }

  lemma {:induction false} FilterPairwise<T(!new)>(related: (T, T) -> bool, keep: T -> bool, s: seq<T>)
    requires Pairwise(related, s)
    ensures Pairwise(related, Filter(keep, s))
  {
    if s != [] {
      FilterPairwise(related, keep, s[1..]);
      var rest := Filter(keep, s[1..]);
      forall j | 0 <= j < |rest| ensures related(s[0], rest[j]) {
        assert rest[j] in s[1..];
      }
    }
  }

  lemma {:induction false} FilterAppend<T(!new)>(keep: T -> bool, s: seq<T>, t: seq<T>)
    ensures Filter(keep, s + t) == Filter(keep, s) + Filter(keep, t)
  {
    if s == [] {
      assert s + t == t;
    } else {
      FilterAppend(keep, s[1..], t);
      assert (s + t)[1..] == s[1..] + t;
    }
  }

  lemma {:induction false} FilterAll<T(!new)>(keep: T -> bool, s: seq<T>)
    requires forall x :: x in s ==> keep(x)
    ensures Filter(keep, s) == s
  {
    if s != [] {
      FilterAll(keep, s[1..]);
    }
  }

  lemma {:induction false} FilterNone<T(!new)>(keep: T -> bool, s: seq<T>)
    requires forall x :: x in s ==> !keep(x)
    ensures Filter(keep, s) == []
  {
    if s != [] {
      FilterNone(keep, s[1..]);
    }
  }

  lemma {:induction false} FilterAgree<T(!new)>(keep: T -> bool, other: T -> bool, s: seq<T>)
    requires forall x :: x in s ==> keep(x) == other(x)
    ensures Filter(keep, s) == Filter(other, s)
  {
    if s != [] {
      FilterAgree(keep, other, s[1..]);
    }
  }

  function Sum<T>(f: T -> int, s: seq<T>): (r: int) {
    if s == [] then 0 else f(s[0]) + Sum(f, s[1..])
  }

  lemma {:induction false} SumOverParts<T(!new)>(f: T -> int, one: T -> bool, other: T -> bool, s: seq<T>)
    requires forall x :: one(x) <==> !other(x)
    ensures Sum(f, Filter(one, s)) + Sum(f, Filter(other, s)) == Sum(f, s)
  {
    if s != [] {
      SumOverParts(f, one, other, s[1..]);
      var keep := if one(s[0]) then one else other;
      assert Filter(keep, s)[1..] == Filter(keep, s[1..]);
    }
  }

  lemma {:induction false} SumAppend<T>(f: T -> int, s: seq<T>, t: seq<T>)
    ensures Sum(f, s + t) == Sum(f, s) + Sum(f, t)
  {
    if s == [] {
      assert s + t == t;
    } else {
      SumAppend(f, s[1..], t);
      assert (s + t)[1..] == s[1..] + t;
    }
  }

  /** What one element adds to the sum of those kept. */
  lemma SumAround<T(!new)>(f: T -> int, keep: T -> bool, s: seq<T>, x: T, t: seq<T>)
    ensures Sum(f, Filter(keep, s + [x] + t)) == Sum(f, Filter(keep, s + t)) + if keep(x) then f(x) else 0
  {
    FilterAppend(keep, s + [x], t);
    FilterAppend(keep, s, [x]);
    FilterAppend(keep, s, t);
    SumAppend(f, Filter(keep, s) + Filter(keep, [x]), Filter(keep, t));
    SumAppend(f, Filter(keep, s), Filter(keep, [x]));
    SumAppend(f, Filter(keep, s), Filter(keep, t));
  }

  lemma {:induction false} FilterTwice<T(!new)>(one: T -> bool, other: T -> bool, s: seq<T>)
    ensures Filter(one, Filter(other, s)) == Filter((x: T) => other(x) && one(x), s)
  {
    if s != [] {
      FilterTwice(one, other, s[1..]);
      if other(s[0]) { assert Filter(other, s)[1..] == Filter(other, s[1..]); }
    }
  }

  lemma SumTwice<T(!new)>(f: T -> int, one: T -> bool, other: T -> bool, both: T -> bool, s: seq<T>)
    requires forall x :: both(x) <==> other(x) && one(x)
    ensures Sum(f, Filter(one, Filter(other, s))) == Sum(f, Filter(both, s))
  {
    FilterTwice(one, other, s);
    FilterAgree((x: T) => other(x) && one(x), both, s);
  }

  /** Elements that agree on `keep` and on `f`, place by place, make the same sum. */
  lemma {:induction false} SameSum<T(!new)>(f: T -> int, keep: T -> bool, s: seq<T>, t: seq<T>)
    requires |s| == |t| && forall i :: 0 <= i < |s| ==> keep(s[i]) == keep(t[i]) && f(s[i]) == f(t[i])
    ensures Sum(f, Filter(keep, s)) == Sum(f, Filter(keep, t))
  {
    if s != [] {
      SameSum(f, keep, s[1..], t[1..]);
      if keep(s[0]) {
        assert Filter(keep, s)[1..] == Filter(keep, s[1..]) && Filter(keep, t)[1..] == Filter(keep, t[1..]);
      }
    }
  }

  lemma {:induction false} SubsetIsNoBigger<T>(a: set<T>, b: set<T>)
    requires a <= b
    ensures |a| <= |b|
  {
    if a != {} {
      var x :| x in a;
      SubsetIsNoBigger(a - {x}, b - {x});
    }
  }
}
