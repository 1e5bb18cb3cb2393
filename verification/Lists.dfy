/** Lists of numbers: distinctness, counting, and the removal of one element; and how any sequences are put together. */
module Lists {

  predicate NoDuplicates(s: seq<nat>)
  {
    s == [] || (s[0] !in s[1..] && NoDuplicates(s[1..]))
  }

  lemma {:induction false} NoDuplicatesMeans(s: seq<nat>)
    ensures NoDuplicates(s) <==> forall i, j :: 0 <= i < j < |s| ==> s[i] != s[j]
  {
    if s != [] {
      NoDuplicatesMeans(s[1..]);
      assert s == [s[0]] + s[1..];
      if s[0] in s[1..] {
        var j :| 0 <= j < |s| - 1 && s[1..][j] == s[0];
        assert s[j + 1] == s[0];
      } else if !NoDuplicates(s[1..]) {
        var i, j :| 0 <= i < j < |s| - 1 && s[1..][i] == s[1..][j];
        assert s[i + 1] == s[j + 1];
      }
    }
  }

  lemma {:induction false} NoDuplicatesAppend(s: seq<nat>, x: nat)
    ensures NoDuplicates(s + [x]) <==> NoDuplicates(s) && x !in s
  {
    if s != [] {
      assert (s + [x])[1..] == s[1..] + [x];
      NoDuplicatesAppend(s[1..], x);
    }
  }

  /** How often x occurs. */
  function Occurrences(s: seq<nat>, x: nat): (n: nat)
    ensures n > 0 <==> x in s
  {
    if s == [] then 0 else (if s[0] == x then 1 else 0) + Occurrences(s[1..], x)
  }

  lemma {:induction false} OccurrencesConcat(s: seq<nat>, t: seq<nat>, x: nat)
    ensures Occurrences(s + t, x) == Occurrences(s, x) + Occurrences(t, x)
  {
    if s == [] {
      assert s + t == t;
    } else {
      assert (s + t)[1..] == s[1..] + t;
      OccurrencesConcat(s[1..], t, x);
    }
  }

  lemma {:induction false} NoDuplicatesByOccurrences(s: seq<nat>)
    ensures NoDuplicates(s) <==> forall x: nat :: Occurrences(s, x) <= 1
  {
    if s != [] {
      NoDuplicatesByOccurrences(s[1..]);
      if s[0] in s[1..] {
        assert Occurrences(s, s[0]) > 1;
      } else if NoDuplicates(s[1..]) {
        forall x: nat
          ensures Occurrences(s, x) <= 1
        {
          assert Occurrences(s[1..], x) <= 1;
        }
      } else {
        var x: nat :| Occurrences(s[1..], x) > 1;
        assert Occurrences(s, x) > 1;
      }
    }
  }

  /** s without the first occurrence of x. */
  function Without(s: seq<nat>, x: nat): seq<nat>
  {
    if s == [] then [] else if s[0] == x then s[1..] else [s[0]] + Without(s[1..], x)
  }

  /** std::find and erase: cutting out the first index of x is what Without does. */
  lemma {:induction false} EraseFirst(s: seq<nat>, x: nat, k: nat)
    requires k < |s| && s[k] == x && x !in s[..k]
    ensures Without(s, x) == s[..k] + s[k + 1..]
  {
    if k > 0 {
      assert s[0] == s[..k][0] && s[1..][..k - 1] == s[..k][1..];
      EraseFirst(s[1..], x, k - 1);
      assert s[..k] + s[k + 1..] == [s[0]] + (s[1..][..k - 1] + s[1..][k..]);
    }
  }

  lemma {:induction false} WithoutMembers(s: seq<nat>, x: nat)
    requires NoDuplicates(s)
    ensures NoDuplicates(Without(s, x))
    ensures forall y :: y in Without(s, x) <==> y in s && y != x
  {
    if s != [] && s[0] != x {
      WithoutMembers(s[1..], x);
      assert ([s[0]] + Without(s[1..], x))[1..] == Without(s[1..], x);
    }
  }

  lemma {:induction false} WithoutLength(s: seq<nat>, x: nat)
    ensures |Without(s, x)| == |s| - if x in s then 1 else 0
  {
    if s != [] && s[0] != x {
      WithoutLength(s[1..], x);
    }
  }

  /** Two lists without duplicates that have the same members are equally long. */
  lemma {:induction false} SameMembersSameLength(a: seq<nat>, b: seq<nat>)
    requires NoDuplicates(a) && NoDuplicates(b) && forall x :: x in a <==> x in b
    ensures |a| == |b|
  {
    assert b == [] || b[0] in b;
    if a != [] {
      var x, rest := a[0], a[1..];
      assert x in b && forall y :: y in a <==> y == x || y in rest;
      WithoutMembers(b, x);
      WithoutLength(b, x);
      SameMembersSameLength(rest, Without(b, x));
    }
  }

  // ----- Sequences of any kind -----

  lemma Regrouped<T>(a: seq<T>, b: seq<T>, c: seq<T>)
    ensures a + (b + c) == a + b + c
  {
  }

  lemma TakeOneMore<T>(s: seq<T>, k: nat)
    requires k < |s|
    ensures s[..k + 1] == s[..k] + [s[k]]
  {
  }

  lemma FirstAndRest<T>(s: seq<T>)
    requires s != []
    ensures s == [s[0]] + s[1..]
  {
  }
}
