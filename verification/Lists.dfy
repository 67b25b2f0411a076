/** The doubly linked lists and tail queues of sys/queue.h, as sequences of
    element identities. */
module Lists {

  ghost predicate NoDup<T(!new)>(s: seq<T>) {
    forall i, j :: 0 <= i < j < |s| ==> s[i] != s[j]
  }

  /** LIST_REMOVE and TAILQ_REMOVE: unlink one element, keeping the order of the rest. */
  function Remove<T(==)>(s: seq<T>, x: T): (r: seq<T>)
    ensures |r| <= |s|
  {
    if s == [] then [] else if s[0] == x then s[1..] else [s[0]] + Remove(s[1..], x)
  }

  lemma {:induction false} RemoveMembers<T(!new)>(s: seq<T>, x: T)
    requires NoDup(s)
    ensures NoDup(Remove(s, x))
    ensures forall y :: y in Remove(s, x) <==> y in s && y != x
    ensures x in s ==> |Remove(s, x)| == |s| - 1
    ensures x in s ==> multiset(s) == multiset(Remove(s, x)) + multiset{x}
  {
    if s != [] {
      assert s == [s[0]] + s[1..];
      if s[0] == x {
        assert x !in s[1..];
      } else {
        RemoveMembers(s[1..], x);
        var t := Remove(s[1..], x);
        assert s[0] !in t;
        assert Remove(s, x) == [s[0]] + t;
      }
    }
  }

  /** Removing the head takes the first element off. */
  lemma RemoveHead<T(!new)>(s: seq<T>)
    requires s != []
    ensures Remove(s, s[0]) == s[1..]
  {
  }

  lemma NoDupPrepend<T(!new)>(x: T, s: seq<T>)
    requires NoDup(s) && x !in s
    ensures NoDup([x] + s)
    ensures forall y :: y in [x] + s <==> y == x || y in s
  {
  }

  lemma NoDupAppend<T(!new)>(s: seq<T>, x: T)
    requires NoDup(s) && x !in s
    ensures NoDup(s + [x])
    ensures forall y :: y in s + [x] <==> y in s || y == x
  {
  }

  lemma NoDupTail<T(!new)>(s: seq<T>)
    requires NoDup(s) && s != []
    ensures NoDup(s[1..]) && s[0] !in s[1..]
    ensures forall y :: y in s[1..] <==> y in s && y != s[0]
    ensures multiset(s) == multiset(s[1..]) + multiset{s[0]}
  {
    assert s == [s[0]] + s[1..];
  }
}
