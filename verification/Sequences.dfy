/** Facts about cutting concatenations, kept apart so that proofs elsewhere stay cheap. */
module Sequences {
  import opened Wrappers

  lemma CutConcat<T>(a: seq<T>, b: seq<T>, c: seq<T>)
    ensures |a| <= |a + b + c| && (a + b + c)[..|a|] == a && (a + b + c)[|a|..] == b + c
  {}

  lemma CutOfConcat<T>(cut: seq<T>, a: seq<T>, b: seq<T>)
    requires cut <= a + b
    ensures |cut| < |a| ==> cut == a[..|cut|]
    ensures |cut| >= |a| ==> cut == a + cut[|a|..] && cut[|a|..] <= b
  {
    if |cut| >= |a| {
      assert (a + b)[|a|..] == b;
      assert cut[|a|..] == (a + b)[|a|..|cut|];
      assert cut[..|a|] == (a + b)[..|a|];
    }
  }

  lemma DropPrefix<T>(a: seq<T>, b: seq<T>, c: seq<T>)
    requires a + b <= a + c
    ensures b <= c
  {
    assert (a + b)[|a|..] == b && (a + c)[|a|..] == c;
    assert b == (a + c)[|a|..|a| + |b|];
  }

  lemma Cancel<T>(a: seq<T>, b: seq<T>, c: seq<T>)
    requires a + b == a + c
    ensures b == c
  {
    assert (a + b)[|a|..] == b && (a + c)[|a|..] == c;
  }

  lemma Regroup<T>(p: seq<T>, a: seq<T>, b: seq<T>, c: seq<T>, d: seq<T>, e: seq<T>)
    ensures p + a + b + c + d + e == p + (a + (b + (c + (d + e))))
  {}

  lemma Assoc<T>(a: seq<T>, b: seq<T>, c: seq<T>)
    ensures (a + b) + c == a + (b + c)
  {}

  lemma PrefixTrans<T>(a: seq<T>, b: seq<T>, c: seq<T>)
    requires a + b <= c
    ensures a <= c
  {
    assert (a + b)[..|a|] == a;
  }

  // ---- A list that is partly done ----

  /** The outcome of a whole list, from what is done of it and the outcome of the rest. */
  function After<T, E>(done: seq<T>, rest: Result<seq<T>, E>): Result<seq<T>, E> {
    match rest case Err(e) => Err(e) case Ok(b) => Ok(done + b)
  }

  lemma AfterBoth<T, E>(done: seq<T>, piece: seq<T>, rest: Result<seq<T>, E>)
    ensures After(done, After(piece, rest)) == After(done + piece, rest)
  {
    if rest.Ok? {
      assert done + (piece + rest.value) == (done + piece) + rest.value;
    }
  }

  lemma AfterNothing<T, E>(rest: Result<seq<T>, E>)
    ensures After([], rest) == rest
  {
    if rest.Ok? {
      assert [] + rest.value == rest.value;
    }
  }

  lemma AfterAll<T, E>(done: seq<T>, rest: Result<seq<T>, E>)
    requires rest == Ok([])
    ensures After(done, rest) == Ok(done)
  {
    assert done + [] == done;
  }

  // ---- Concatenation by name, for proofs that only regroup it ----

  function Cat<T>(a: seq<T>, b: seq<T>): seq<T> {
    a + b
  }

  lemma CatIs<T>(a: seq<T>, b: seq<T>)
    ensures Cat(a, b) == a + b && a <= Cat(a, b)
  {}

  lemma CatNothing<T>(a: seq<T>)
    ensures Cat(a, []) == a && Cat([], a) == a
  {
    assert [] + a == a;
  }

  lemma CatMore<T>(a: seq<T>, b: seq<T>, c: seq<T>)
    ensures Cat(a, b) + c == Cat(a, b + c)
  {}

  // ---- Chunks ----

  function Joined<T>(chunks: seq<seq<T>>): seq<T> {
    if chunks == [] then [] else Joined(chunks[..|chunks| - 1]) + chunks[|chunks| - 1]
  }

  lemma JoinedSnoc<T>(chunks: seq<seq<T>>, chunk: seq<T>)
    ensures Joined(chunks + [chunk]) == Joined(chunks) + chunk
  {
    assert (chunks + [chunk])[..|chunks|] == chunks;
  }

  lemma {:induction false} JoinedCons<T>(chunks: seq<seq<T>>)
    requires chunks != []
    ensures Joined(chunks) == chunks[0] + Joined(chunks[1..])
    decreases |chunks|
  {
    var most, last := chunks[..|chunks| - 1], chunks[|chunks| - 1];
    if most == [] {
      assert chunks[1..] == [] && Joined(chunks) == [] + last && last + [] == last;
    } else {
      JoinedCons(most);
      JoinedSnoc(most[1..], last);
      Assoc(chunks[0], Joined(most[1..]), last);
      assert most[1..] + [last] == chunks[1..];
    }
  }

  // ---- Pigeonhole ----

  ghost predicate NoRepeats<T>(s: seq<T>) {
    forall i, j :: 0 <= i < j < |s| ==> s[i] != s[j]
  }

  ghost function Elements<T>(s: seq<T>): set<T> {
    set x | x in s
  }

  lemma {:induction false} Cardinality<T>(s: seq<T>)
    ensures |Elements(s)| <= |s| && (|Elements(s)| == |s| <==> NoRepeats(s))
  {
    if s != [] {
      var most, last := s[..|s| - 1], s[|s| - 1];
      Cardinality(most);
      assert Elements(s) == Elements(most) + {last};
      if last in most {
        assert Elements(s) == Elements(most);
        assert !NoRepeats(s);
      } else {
        assert |Elements(s)| == |Elements(most)| + 1;
        assert NoRepeats(s) <==> NoRepeats(most);
      }
    }
  }

  function UpTo(n: nat): (r: set<nat>)
    ensures |r| == n && forall i :: i in r <==> 0 <= i < n
  {
    if n == 0 then {} else UpTo(n - 1) + {n - 1}
  }

  lemma {:induction false} FullSubset(a: set<nat>, b: set<nat>)
    requires a <= b && |a| == |b|
    ensures a == b
    decreases |a|
  {
    if a != {} {
      var x :| x in a;
      FullSubset(a - {x}, b - {x});
      assert a == (a - {x}) + {x} && b == (b - {x}) + {x};
    }
  }

  /** As many holes as pigeons: every hole is filled exactly when no hole is shared. */
  lemma Pigeonhole(s: seq<nat>)
    requires forall i :: 0 <= i < |s| ==> s[i] < |s|
    ensures NoRepeats(s) <==> forall i :: 0 <= i < |s| ==> i in s
  {
    Cardinality(s);
    var holes := UpTo(|s|);
    assert Elements(s) <= holes;
    if NoRepeats(s) {
      FullSubset(Elements(s), holes);
      assert forall i :: 0 <= i < |s| ==> i in holes && (i in Elements(s) ==> i in s);
    }
    if forall i :: 0 <= i < |s| ==> i in s {
      assert holes == Elements(s);
    }
  }
}
