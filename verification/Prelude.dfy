/** Shared datatypes and the few sequence facts the other modules need. */
module Prelude {
  datatype Option<+T> = None | Some(value: T)

  /** The result of Go code that may dereference a nil pointer, return an error, or succeed. */
  datatype Outcome<+T> = Panic | Err | Ok(value: T)

  /** `int64`. */
  type Int64 = x: int | -0x8000_0000_0000_0000 <= x < 0x8000_0000_0000_0000

  /** The concatenation of `f` over the elements of `s`: the effect of an append loop. */
  function FlatMap<A, B>(f: A -> seq<B>, s: seq<A>): seq<B> {
    if s == [] then [] else f(s[0]) + FlatMap(f, s[1..])
  }

  lemma {:induction false} FlatMapAppend<A, B>(f: A -> seq<B>, s: seq<A>, t: seq<A>)
    ensures FlatMap(f, s + t) == FlatMap(f, s) + FlatMap(f, t)
  {
    if s == [] {
      assert s + t == t;
    } else {
      assert (s + t)[0] == s[0] && (s + t)[1..] == s[1..] + t;
      FlatMapAppend(f, s[1..], t);
    }
  }

  lemma FlatMapOne<A, B>(f: A -> seq<B>, a: A)
    ensures FlatMap(f, [a]) == f(a)
  {
  }

  /** One more round of the append loop. */
  lemma FlatMapStep<A, B>(f: A -> seq<B>, s: seq<A>, i: nat)
    requires i < |s|
    ensures FlatMap(f, s[..i + 1]) == FlatMap(f, s[..i]) + f(s[i])
  {
    assert s[..i + 1] == s[..i] + [s[i]];
    FlatMapAppend(f, s[..i], [s[i]]);
    FlatMapOne(f, s[i]);
  }

  lemma {:induction false} FlatMapMember<A, B>(f: A -> seq<B>, s: seq<A>, b: B)
    ensures b in FlatMap(f, s) <==> exists a :: a in s && b in f(a)
  {
    if s != [] {
      FlatMapMember(f, s[1..], b);
      assert s == [s[0]] + s[1..];
    }
  }

  /** Where an element goes in the input, its contribution goes in the output. */
  lemma FlatMapSplit<A, B>(f: A -> seq<B>, s: seq<A>, i: nat)
    requires i < |s|
    ensures multiset(FlatMap(f, s)) == multiset(f(s[i])) + multiset(FlatMap(f, s[..i] + s[i + 1..]))
  {
    var before, after := s[..i], s[i + 1..];
    assert s == before + ([s[i]] + after);
    FlatMapAppend(f, before, [s[i]] + after);
    FlatMapAppend(f, [s[i]], after);
    FlatMapOne(f, s[i]);
    FlatMapAppend(f, before, after);
  }

  lemma RemoveFromMultiset<A>(s: seq<A>, i: nat)
    requires i < |s|
    ensures multiset(s[..i] + s[i + 1..]) == multiset(s) - multiset{s[i]}
  {
    assert s == s[..i] + [s[i]] + s[i + 1..];
  }

  lemma PlaceOf<A>(a: A, s: seq<A>, t: seq<A>) returns (i: nat)
    requires a in s && multiset(s) == multiset(t)
    ensures i < |t| && t[i] == a
  {
    assert a in multiset(s);
    assert a in multiset(t);
    i :| 0 <= i < |t| && t[i] == a;
  }

  /** Taking one element out of two sequences with the same multiset. */
  lemma TakeOut<A>(s: seq<A>, t: seq<A>) returns (i: nat)
    requires multiset(s) == multiset(t) && s != []
    ensures i < |t| && t[i] == s[0]
    ensures multiset(s[1..]) == multiset(t[..i] + t[i + 1..])
  {
    i := PlaceOf(s[0], s, t);
    RemoveFromMultiset(t, i);
    assert s == [s[0]] + s[1..];
    assert multiset(s[1..]) == multiset(s) - multiset{s[0]};
  }

  /** Reordering the input only reorders the output. */
  lemma {:induction false} FlatMapPermutation<A, B>(f: A -> seq<B>, s: seq<A>, t: seq<A>)
    requires multiset(s) == multiset(t)
    ensures multiset(FlatMap(f, s)) == multiset(FlatMap(f, t))
    decreases |s|
  {
    if s == [] {
      assert |t| == |multiset(t)| == 0;
      assert s == t;
    } else {
      var i := TakeOut(s, t);
      var rest := t[..i] + t[i + 1..];
      FlatMapPermutation(f, s[1..], rest);
      FlatMapSplit(f, t, i);
    }
  }

  /** Two sequences with the same multiset have the same members. */
  lemma SameMembers<T>(s: seq<T>, t: seq<T>)
    requires multiset(s) == multiset(t)
    ensures |s| == |t| && forall x :: x in s <==> x in t
  {
    assert |s| == |multiset(s)| == |multiset(t)| == |t|;
    forall x ensures x in s <==> x in t {
      assert x in s <==> x in multiset(s);
      assert x in t <==> x in multiset(t);
    }
  }
}
