/** Finite sequences without repetition, as the contents of linked lists. */
module Sequences {
  function Elements<T>(s: seq<T>): set<T>
  {
    set x | x in s
  }

  ghost predicate NoDup<T>(s: seq<T>)
  {
    forall i, j :: 0 <= i < j < |s| ==> s[i] != s[j]
  }

  // ---------------------------------------------------------------- removing and keeping

  function Remove<T(==)>(s: seq<T>, x: T): seq<T>
  {
    if s == [] then [] else if s[0] == x then s[1..] else [s[0]] + Remove(s[1..], x)
  }

  /** The elements of s that are in `keep`, in order. */
  function Keep<T>(s: seq<T>, keep: set<T>): seq<T>
  {
    if s == [] then [] else (if s[0] in keep then [s[0]] else []) + Keep(s[1..], keep)
  }

  lemma {:induction false} KeepElements<T>(s: seq<T>, keep: set<T>)
    ensures forall i :: 0 <= i < |Keep(s, keep)| ==> Keep(s, keep)[i] in s && Keep(s, keep)[i] in keep
    ensures forall x :: x in s && x in keep ==> x in Keep(s, keep)
  {
    if s != [] { KeepElements(s[1..], keep); }
  }

  lemma {:induction false} KeepNoDup<T>(s: seq<T>, keep: set<T>)
    requires NoDup(s)
    ensures NoDup(Keep(s, keep))
  {
    if s != [] {
      KeepNoDup(s[1..], keep);
      KeepElements(s[1..], keep);
      assert s[0] !in s[1..];
    }
  }

  lemma {:induction false} KeepAppend<T>(s: seq<T>, x: T, keep: set<T>)
    ensures Keep(s + [x], keep) == Keep(s, keep) + (if x in keep then [x] else [])
  {
    if s != [] {
      assert (s + [x])[1..] == s[1..] + [x];
      KeepAppend(s[1..], x, keep);
    }
  }

  lemma {:induction false} KeepAgree<T>(s: seq<T>, a: set<T>, b: set<T>)
    requires forall x :: x in s ==> (x in a <==> x in b)
    ensures Keep(s, a) == Keep(s, b)
  {
    if s != [] { KeepAgree(s[1..], a, b); }
  }

  lemma {:induction false} KeepAll<T>(s: seq<T>, keep: set<T>)
    requires forall x :: x in s ==> x in keep
    ensures Keep(s, keep) == s
  {
    if s != [] { KeepAll(s[1..], keep); }
  }

  lemma {:induction false} KeepNone<T>(s: seq<T>)
    ensures Keep(s, {}) == []
  {
    if s != [] { KeepNone(s[1..]); }
  }

  /** Removing one more element. */
  lemma {:induction false} KeepLess<T>(s: seq<T>, keep: set<T>, x: T)
    requires NoDup(s) && x in s && x in keep
    ensures Remove(Keep(s, keep), x) == Keep(s, keep - {x})
  {
    var rest, less := Keep(s[1..], keep), Keep(s[1..], keep - {x});
    assert [] + rest == rest && [] + less == less && ([s[0]] + rest)[1..] == rest;
    if s[0] == x {
      assert x !in s[1..];
      KeepAgree(s[1..], keep, keep - {x});
      assert Keep(s, keep) == [x] + rest;
    } else {
      assert x in s[1..];
      KeepLess(s[1..], keep, x);
      assert Keep(s, keep) == (if s[0] in keep then [s[0]] + rest else rest);
      assert Keep(s, keep - {x}) == (if s[0] in keep then [s[0]] + less else less);
      hide Keep;
    }
  }

  lemma {:induction false} RemoveElements<T>(s: seq<T>, x: T)
    requires NoDup(s)
    ensures forall i :: 0 <= i < |Remove(s, x)| ==> Remove(s, x)[i] in s && Remove(s, x)[i] != x
    ensures forall y :: y in s && y != x ==> y in Remove(s, x)
    ensures NoDup(Remove(s, x))
  {
    if s != [] {
      assert s[0] !in s[1..];
      RemoveElements(s[1..], x);
    }
  }

  lemma ElementsSplit<T>(a: seq<T>, b: seq<T>)
    ensures Elements(a + b) == Elements(a) + Elements(b)
  {
  }

  // ---------------------------------------------------------------- reversing

  function Reverse<T>(s: seq<T>): seq<T>
  {
    if s == [] then [] else [s[|s| - 1]] + Reverse(s[..|s| - 1])
  }

  lemma ReverseSnoc<T>(s: seq<T>, x: T)
    ensures Reverse(s + [x]) == [x] + Reverse(s)
  {
    assert (s + [x])[..|s|] == s;
  }

  lemma {:induction false} ReverseElements<T>(s: seq<T>)
    ensures |Reverse(s)| == |s|
    ensures forall i :: 0 <= i < |s| ==> Reverse(s)[i] == s[|s| - 1 - i]
    ensures Elements(Reverse(s)) == Elements(s)
  {
    if s != [] {
      var front := s[..|s| - 1];
      ReverseElements(front);
      assert Reverse(s) == [s[|s| - 1]] + Reverse(front);
      forall i | 0 <= i < |s| ensures Reverse(s)[i] == s[|s| - 1 - i] {
        if i > 0 { assert Reverse(front)[i - 1] == front[|front| - 1 - (i - 1)]; }
      }
      assert s == front + [s[|s| - 1]];
      ElementsSplit(front, [s[|s| - 1]]);
      ElementsSplit([s[|s| - 1]], Reverse(front));
    }
  }

  lemma ReverseNoDup<T>(s: seq<T>)
    requires NoDup(s)
    ensures NoDup(Reverse(s))
  {
    ReverseElements(s);
  }

  // ---------------------------------------------------------------- sets

  lemma Shrinks<T>(nodes: set<T>, was: set<T>, done: set<T>)
    requires was <= done <= nodes && was != done
    ensures |nodes - done| < |nodes - was|
  {
    var x :| x in done && x !in was;
    assert nodes - done <= (nodes - was) - {x};
    Smaller(nodes - done, (nodes - was) - {x});
  }

  lemma {:induction false} Smaller<T>(a: set<T>, b: set<T>)
    requires a <= b
    ensures |a| <= |b|
  {
    if a != {} {
      var x :| x in a;
      Smaller(a - {x}, b - {x});
    }
  }
}
