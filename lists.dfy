/** List filtering as the backup manager's list comprehensions do it. */
module Lists {

  /**
   * `[x for x in s if x not in remove]`: keeps, in their order, exactly the
   * elements of `s` that are not in `remove`, each as often as `s` has it.
   */
  function RemoveAll(s: seq<string>, remove: seq<string>): seq<string>
  {
    if s == [] then [] else (if s[0] in remove then [] else [s[0]]) + RemoveAll(s[1..], remove)
  }

  /** An element is kept exactly when `s` has it and it is not being removed. */
  lemma {:induction false} RemoveAllMembers(s: seq<string>, remove: seq<string>)
    ensures forall x :: x in RemoveAll(s, remove) <==> x in s && x !in remove
  {
    if s != [] {
      assert s == [s[0]] + s[1..];
      RemoveAllMembers(s[1..], remove);
    }
  }

  /** Each kept element occurs as often as in `s`; each removed one not at all. */
  lemma {:induction false} RemoveAllCounts(s: seq<string>, remove: seq<string>, x: string)
    ensures multiset(RemoveAll(s, remove))[x] == if x in remove then 0 else multiset(s)[x]
  {
    if s != [] {
      assert s == [s[0]] + s[1..];
      RemoveAllCounts(s[1..], remove, x);
    }
  }

  /** Filtering distributes over concatenation, so the kept elements stay in their order. */
  lemma {:induction false} RemoveAllAppend(a: seq<string>, b: seq<string>, remove: seq<string>)
    ensures RemoveAll(a + b, remove) == RemoveAll(a, remove) + RemoveAll(b, remove)
  {
    if a == [] {
      assert a + b == b;
    } else {
      var ab := a + b;
      assert ab[0] == a[0] && ab[1..] == a[1..] + b;
      RemoveAllAppend(a[1..], b, remove);
      var head := if a[0] in remove then [] else [a[0]];
      assert RemoveAll(ab, remove) == head + RemoveAll(a[1..] + b, remove);
      assert RemoveAll(a, remove) == head + RemoveAll(a[1..], remove);
    }
  }

  /** Removing the same elements a second time changes nothing. */
  lemma {:induction false} RemoveAllIdempotent(s: seq<string>, remove: seq<string>)
    ensures RemoveAll(RemoveAll(s, remove), remove) == RemoveAll(s, remove)
  {
    if s != [] {
      var head := if s[0] in remove then [] else [s[0]];
      RemoveAllAppend(head, RemoveAll(s[1..], remove), remove);
      RemoveAllIdempotent(s[1..], remove);
      assert RemoveAll(head, remove) == head;
    }
  }
}
