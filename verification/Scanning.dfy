/** Scanning a text from its front, as the hand-written parsers do with a peekable iterator. */
module Scanning {
  import opened Wrappers

  predicate All(f: char -> bool, s: string) {
    forall i :: 0 <= i < |s| ==> f(s[i])
  }

  // How many leading characters satisfy `f`.
  function Leading(f: char -> bool, s: string): (n: nat)
    ensures n <= |s| && All(f, s[..n]) && (n < |s| ==> !f(s[n]))
  {
    if s == [] || !f(s[0]) then 0
    else
      var n := 1 + Leading(f, s[1..]);
      assert s[..n] == [s[0]] + s[1..][..n - 1];
      n
  }

  function Taken(f: char -> bool, s: string): string {
    s[..Leading(f, s)]
  }

  function Dropped(f: char -> bool, s: string): (r: string)
    ensures |r| + |Taken(f, s)| == |s| && (r != [] ==> !f(r[0]))
  {
    s[Leading(f, s)..]
  }

  function Eaten(s: string, target: char): Option<string> {
    if s != [] && s[0] == target then Some(s[1..]) else None
  }

  lemma {:induction false} TakenRun(f: char -> bool, a: string, rest: string)
    requires All(f, a) && (rest == [] || !f(rest[0]))
    ensures Taken(f, a + rest) == a && Dropped(f, a + rest) == rest
    decreases |a|
  {
    if a == [] {
      assert a + rest == rest;
    } else {
      assert (a + rest)[1..] == a[1..] + rest;
      TakenRun(f, a[1..], rest);
      assert Leading(f, a + rest) == |a| by {
        assert |Taken(f, a[1..] + rest)| == |a| - 1;
      }
    }
  }

  class Scanner {
    var rest: string

    constructor (s: string)
      ensures rest == s
    {
      rest := s;
    }

    method Eat(target: char) returns (ok: bool)
      modifies this
      ensures ok == Eaten(old(rest), target).Some?
      ensures ok ==> rest == Eaten(old(rest), target).value
    {
      if rest == [] || rest[0] != target {
        return false;
      }
      rest := rest[1..];
      return true;
    }

    method EatIf(target: char) returns (ok: bool)
      modifies this
      ensures ok == Eaten(old(rest), target).Some?
      ensures rest == if ok then Eaten(old(rest), target).value else old(rest)
    {
      if rest != [] && rest[0] == target {
        rest := rest[1..];
        return true;
      }
      return false;
    }

    method TakeWhile(f: char -> bool) returns (taken: string)
      modifies this
      ensures taken == Taken(f, old(rest)) && rest == Dropped(f, old(rest))
    {
      var n := 0;
      while n < |rest| && f(rest[n])
        invariant n <= |rest| && Leading(f, rest) == n + Leading(f, rest[n..])
      {
        assert rest[n..][1..] == rest[n + 1..];
        n := n + 1;
      }
      taken := rest[..n];
      rest := rest[n..];
    }
  }
}
