/**
 * The user registry's stored form: `save_users` writes `sorted(set(users))`,
 * an ascending list without duplicates.
 */
module Users {
  predicate StrictlyAscending(s: seq<int>) {
    forall i, j :: 0 <= i < j < |s| ==> s[i] < s[j]
  }

  /** Adds `x` to an ascending duplicate-free list, keeping it so. */
  function InsertSorted(s: seq<int>, x: int): (r: seq<int>)
    requires StrictlyAscending(s)
    ensures StrictlyAscending(r)
    ensures forall y :: y in r <==> y in s || y == x
  {
    if s == [] then [x]
    else if x < s[0] then [x] + s
    else if x == s[0] then s
    else
      var rest := InsertSorted(s[1..], x);
      assert forall y :: y in s <==> y == s[0] || y in s[1..];
      forall k | 0 <= k < |rest| ensures s[0] < rest[k] {
        assert rest[k] in rest;
        if rest[k] != x {
          var j :| 0 <= j < |s[1..]| && s[1..][j] == rest[k];
          assert s[j + 1] == rest[k];
        }
      }
      [s[0]] + rest
  }

  /** Python's `sorted(set(users))`. */
  function SortedUnique(s: seq<int>): (r: seq<int>)
    ensures StrictlyAscending(r)
    ensures forall y :: y in r <==> y in s
  {
    if s == [] then []
    else
      var init := s[..|s| - 1];
      assert forall y :: y in s <==> y in init || y == s[|s| - 1];
      InsertSorted(SortedUnique(init), s[|s| - 1])
  }

  /** Two ascending duplicate-free lists with the same members are equal. */
  lemma {:induction false} AscendingUnique(a: seq<int>, b: seq<int>)
    requires StrictlyAscending(a) && StrictlyAscending(b)
    requires forall y :: y in a <==> y in b
    ensures a == b
    decreases |a|
  {
    assert a != [] ==> a[0] in a && a[0] in b;
    assert b != [] ==> b[0] in b && b[0] in a;
    if a != [] && b != [] {
      assert a[0] == b[0] by {
        assert b[0] in a && a[0] in b;
      }
      assert a == [a[0]] + a[1..] && b == [b[0]] + b[1..];
      forall y ensures y in a[1..] <==> y in b[1..] {
        if y in a[1..] {
          var k :| 0 <= k < |a| - 1 && a[1..][k] == y;
          assert a[k + 1] == y && y in b && y != b[0];
        }
        if y in b[1..] {
          var k :| 0 <= k < |b| - 1 && b[1..][k] == y;
          assert b[k + 1] == y && y in a && y != a[0];
        }
      }
      AscendingUnique(a[1..], b[1..]);
    }
  }

  /** Saving a list that is already ascending writes it unchanged. */
  lemma SaveAscending(s: seq<int>)
    requires StrictlyAscending(s)
    ensures SortedUnique(s) == s
  {
    AscendingUnique(SortedUnique(s), s);
  }

  /** In an ascending list every member occurs exactly once. */
  lemma {:induction false} AscendingOnce(s: seq<int>, x: int)
    requires StrictlyAscending(s) && x in s
    ensures multiset(s)[x] == 1
  {
    if s[0] == x {
      assert x !in s[1..];
      assert s == [s[0]] + s[1..];
    } else {
      AscendingOnce(s[1..], x);
      assert s == [s[0]] + s[1..];
    }
  }

  /** The stored list after `register_user(id)`. */
  function Registered(users: seq<int>, id: int): (r: seq<int>)
    ensures id in r
    ensures forall y :: y in r <==> y in users || y == id
    ensures StrictlyAscending(users) ==> StrictlyAscending(r)
    ensures id in users ==> r == users
  {
    if id in users then users else SortedUnique(users + [id])
  }

  /** Registering the same user twice changes nothing the second time, whatever the stored list. */
  lemma RegisterTwice(users: seq<int>, id: int)
    ensures Registered(Registered(users, id), id) == Registered(users, id)
  {
  }

  /** A registered user is stored exactly once in a list kept strictly ascending. */
  lemma RegisteredOnce(users: seq<int>, id: int)
    requires StrictlyAscending(users)
    ensures multiset(Registered(users, id))[id] == 1
  {
    AscendingOnce(Registered(users, id), id);
  }
}
