/**
 * The mutable set of data_struct/set/set.go. The Go type keeps its members as the keys
 * of a `map[interface{}]struct{}`; here the field `m` is the set of those keys.
 */
module Sets {

  /** The distinct elements of a list. */
  function Elems<T>(xs: seq<T>): set<T> {
    set x | x in xs
  }

  /** A subset is never larger than its superset. */
  lemma SubsetSize<T>(a: set<T>, b: set<T>)
    requires a <= b
    ensures |a| <= |b|
  {
    assert b == a + (b - a);
  }

  /** A subset as large as its superset is the whole superset. */
  lemma SubsetSameSize<T>(a: set<T>, b: set<T>)
    requires a <= b && |a| == |b|
    ensures a == b
  {
    assert b == a + (b - a);
    assert |b - a| == 0;
  }

  class Set<T(==)> {
    var m: set<T>

    /** New(elems...): a set holding exactly the distinct given elements. */
    constructor (elems: seq<T>)
      ensures m == Elems(elems)
    {
      m := {};
      new;
      Add(elems);
    }

    method Has(elem: T) returns (ok: bool)
      ensures ok <==> elem in m
    {
      ok := elem in m;
    }

    /** Add(elems...): each element becomes a member; earlier members stay. */
    method Add(elems: seq<T>)
      modifies this
      ensures m == old(m) + Elems(elems)
    {
      var i := 0;
      while i < |elems|
        invariant 0 <= i <= |elems|
        invariant m == old(m) + Elems(elems[..i])
      {
        assert elems[..i + 1] == elems[..i] + [elems[i]];
        m := m + {elems[i]};
        i := i + 1;
      }
      assert elems[..i] == elems;
    }

    /** Del(elem): removes elem; deleting an absent element changes nothing. */
    method Del(elem: T)
      modifies this
      ensures m == old(m) - {elem}
    {
      m := m - {elem};
    }

    /** Clear(): replaces the map by an empty one. */
    method Clear()
      modifies this
      ensures m == {}
    {
      m := {};
    }

    method Size() returns (n: int)
      ensures n == |m|
    {
      n := |m|;
    }

    /** Equal: same size, and every member of s is in right. */
    method Equal(right: Set<T>) returns (eq: bool)
      ensures eq <==> m == right.m
    {
      var n := Size();
      var k := right.Size();
      if n != k {
        return false;
      }
      var rest := m;
      while rest != {}
        invariant rest <= m
        invariant forall x :: x in m && x !in rest ==> x in right.m
        decreases |rest|
      {
        var key :| key in rest;
        var h := right.Has(key);
        if !h {
          return false;
        }
        rest := rest - {key};
      }
      SubsetSameSize(m, right.m);
      return true;
    }

    /** IsSubOf: every member of s is in other; the early size test never changes the answer. */
    method IsSubOf(other: Set<T>) returns (sub: bool)
      ensures sub <==> m <= other.m
    {
      var n := Size();
      var k := other.Size();
      if n > k {
        if m <= other.m {
          SubsetSize(m, other.m);
        }
        return false;
      }
      var rest := m;
      while rest != {}
        invariant rest <= m
        invariant forall x :: x in m && x !in rest ==> x in other.m
        decreases |rest|
      {
        var key :| key in rest;
        var h := other.Has(key);
        if !h {
          return false;
        }
        rest := rest - {key};
      }
      return true;
    }
  }
}

/** The scenario of data_struct/set/set_test.go, replayed on the model. */
module SetsExamples {
  import opened Sets

  /** The dynamically typed elements the Go test mixes: integers and a string. */
  datatype Key = Num(n: int) | Text(s: string)

  method SetTestScenario() returns (sizeAfterNew: int, hadOne: bool, hasOneAfterDel: bool,
                                     subAfterDel: bool, sizeAfterClear: int, equalAfterAdd: bool)
    ensures sizeAfterNew == 5 && hadOne && !hasOneAfterDel
    ensures !subAfterDel && sizeAfterClear == 0 && equalAfterAdd
  {
    var input := [Num(1), Num(2), Num(3), Num(3), Num(3), Num(4), Text("string")];
    var five := {Num(1), Num(2), Num(3), Num(4), Text("string")};
    assert Elems(input) == five && |five| == 5;
    var s := new Set(input);
    sizeAfterNew := s.Size();
    hadOne := s.Has(Num(1));
    s.Del(Num(1));
    hasOneAfterDel := s.Has(Num(1));
    var small := [Num(1), Num(2), Num(3)];
    var three := {Num(1), Num(2), Num(3)};
    assert Elems(small) == three;
    var sub := new Set(small);
    assert Num(1) in sub.m && Num(1) !in s.m;
    subAfterDel := sub.IsSubOf(s);
    s.Clear();
    sizeAfterClear := s.Size();
    s.Add(small);
    equalAfterAdd := s.Equal(sub);
  }
}
