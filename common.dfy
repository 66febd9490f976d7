/** Small shared definitions: the optional value, `clamp`, absolute value
    and the "keep what is not in this set" filter that several call sites use. */
module Common {

  datatype Option<T> = None | Some(value: T)

  /** `Math.max(min, Math.min(max, value))`: defined for every argument,
      and for `lo > hi` it answers `lo`, as the JavaScript expression does. */
  function Clamp(v: int, lo: int, hi: int): (r: int)
    ensures lo <= hi ==> lo <= r <= hi
    ensures lo <= v <= hi ==> r == v
    ensures v < lo ==> r == lo
    ensures lo <= hi < v ==> r == hi
    ensures hi < lo ==> r == lo
  {
    var m := if hi < v then hi else v;
    if lo < m then m else lo
  }

  function Abs(x: int): (r: int)
    ensures 0 <= r && (r == x || r == -x)
  {
    if x < 0 then -x else x
  }

  function Min(a: int, b: int): (r: int)
    ensures r <= a && r <= b && (r == a || r == b)
  {
    if a < b then a else b
  }

  /** Concatenation is associative (stated once so that callers with large
      contexts need not re-derive it elementwise). */
  lemma AppendAssoc<T>(a: seq<T>, b: seq<T>, c: seq<T>)
    ensures a + (b + c) == a + b + c
  {
  }

  /** No element occurs twice. */
  predicate NoDup<T(==)>(s: seq<T>) {
    forall i, j :: 0 <= i < j < |s| ==> s[i] != s[j]
  }

  /** `s.filter((x) => !drop.has(x))`: the elements of `s` outside `drop`, in order. */
  function Exclude<T(==, !new)>(s: seq<T>, drop: set<T>): (r: seq<T>)
    ensures |r| <= |s|
    ensures forall x :: x in r <==> x in s && x !in drop
  {
    if s == [] then []
    else (if s[0] in drop then [] else [s[0]]) + Exclude(s[1..], drop)
  }

  /** Filtering distributes over concatenation, so it keeps the relative order of what it keeps. */
  lemma {:induction false} ExcludeAppend<T(!new)>(a: seq<T>, b: seq<T>, drop: set<T>)
    ensures Exclude(a + b, drop) == Exclude(a, drop) + Exclude(b, drop)
  {
    if a != [] {
      assert (a + b)[0] == a[0];
      assert (a + b)[1..] == a[1..] + b;
      ExcludeAppend(a[1..], b, drop);
    } else {
      assert a + b == b;
    }
  }

  /** Filtering a list without repetitions yields a list without repetitions. */
  lemma {:induction false} ExcludeNoDup<T(!new)>(s: seq<T>, drop: set<T>)
    requires NoDup(s)
    ensures NoDup(Exclude(s, drop))
  {
    if s != [] {
      var tail := s[1..];
      assert NoDup(tail) by {
        forall i, j | 0 <= i < j < |tail| ensures tail[i] != tail[j] {
          assert tail[i] == s[i + 1] && tail[j] == s[j + 1];
        }
      }
      ExcludeNoDup(tail, drop);
      var rest := Exclude(tail, drop);
      assert s[0] !in tail by {
        forall k | 0 <= k < |tail| ensures tail[k] != s[0] {
          assert tail[k] == s[k + 1];
        }
      }
      assert s[0] !in rest;
    }
  }

  /** A list without repetitions has as many elements as the set of its elements. */
  lemma {:induction false} NoDupCard<T>(s: seq<T>)
    requires NoDup(s)
    ensures |set x | x in s| == |s|
  {
    if s != [] {
      var last := s[|s| - 1];
      var init := s[..|s| - 1];
      assert NoDup(init) by {
        forall i, j | 0 <= i < j < |init| ensures init[i] != init[j] {
          assert init[i] == s[i] && init[j] == s[j];
        }
      }
      NoDupCard(init);
      assert last !in init by {
        forall k | 0 <= k < |init| ensures init[k] != last {
          assert init[k] == s[k];
        }
      }
      assert s == init + [last];
      assert (set x | x in s) == (set x | x in init) + {last};
    }
  }
}
