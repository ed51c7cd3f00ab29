/** Sequences without duplicates, and the ways the source removes elements from vectors. */
module Lists {
  ghost predicate NoDup<T>(s: seq<T>) {
    forall i, j :: 0 <= i < j < |s| ==> s[i] != s[j]
  }

  ghost function Elements<T>(s: seq<T>): set<T> {
    set x | x in s
  }

  /** The first occurrence only, as a search followed by one erase. */
  function RemoveFirst<T(==)>(s: seq<T>, x: T): seq<T> {
    if s == [] then [] else if s[0] == x then s[1..] else [s[0]] + RemoveFirst(s[1..], x)
  }

  /** Every occurrence, as std::remove followed by erase. */
  function RemoveAll<T(==)>(s: seq<T>, x: T): seq<T> {
    if s == [] then [] else (if s[0] == x then [] else [s[0]]) + RemoveAll(s[1..], x)
  }

  lemma NoDupCons<T>(x: T, s: seq<T>)
    ensures NoDup([x] + s) <==> x !in s && NoDup(s)
  {
    var t := [x] + s;
    assert t[1..] == s;
    if NoDup(t) {
      forall i, j | 0 <= i < j < |s| ensures s[i] != s[j] {
        assert t[i + 1] != t[j + 1];
      }
      forall j | 0 <= j < |s| ensures s[j] != x {
        assert t[0] != t[j + 1];
      }
    }
  }

  lemma NoDupAppend<T>(s: seq<T>, x: T)
    requires NoDup(s) && x !in s
    ensures NoDup(s + [x]) && Elements(s + [x]) == Elements(s) + {x}
  {
  }

  lemma {:induction false} RemoveFirstFromNoDup<T>(s: seq<T>, x: T)
    requires NoDup(s)
    ensures NoDup(RemoveFirst(s, x))
    ensures forall y :: y in RemoveFirst(s, x) <==> y in s && y != x
    ensures |RemoveFirst(s, x)| == |s| - (if x in s then 1 else 0)
  {
    if s == [] {
    } else {
      assert s == [s[0]] + s[1..];
      NoDupCons(s[0], s[1..]);
      RemoveFirstFromNoDup(s[1..], x);
      NoDupCons(s[0], RemoveFirst(s[1..], x));
    }
  }

  lemma {:induction false} RemoveAllElements<T>(s: seq<T>, x: T)
    ensures forall y :: y in RemoveAll(s, x) <==> y in s && y != x
    ensures NoDup(s) ==> NoDup(RemoveAll(s, x))
    ensures x !in s ==> RemoveAll(s, x) == s
  {
    if s == [] {
    } else {
      assert s == [s[0]] + s[1..];
      NoDupCons(s[0], s[1..]);
      RemoveAllElements(s[1..], x);
      NoDupCons(s[0], RemoveAll(s[1..], x));
    }
  }

  /** Appending distributes over RemoveAll; used by the loop that filters in place. */
  lemma {:induction false} RemoveAllSnoc<T>(s: seq<T>, y: T, x: T)
    ensures RemoveAll(s + [y], x) == RemoveAll(s, x) + (if y == x then [] else [y])
  {
    if s == [] {
      assert [] + [y] == [y];
    } else {
      assert (s + [y])[1..] == s[1..] + [y];
      RemoveAllSnoc(s[1..], y, x);
    }
  }

  /** RemoveFirst is an erase at the first position that holds the element. */
  lemma {:induction false} RemoveFirstAt<T>(s: seq<T>, i: nat, x: T)
    requires i <= |s| && x !in s[..i] && (i < |s| ==> s[i] == x)
    ensures RemoveFirst(s, x) == if i < |s| then s[..i] + s[i + 1..] else s
  {
    if i == 0 {
    } else {
      var rest := s[1..];
      assert s[0] == s[..i][0] && s == [s[0]] + rest;
      assert rest[..i - 1] == s[..i][1..];
      RemoveFirstAt(rest, i - 1, x);
      if i < |s| {
        assert s[..i] == [s[0]] + rest[..i - 1] && s[i + 1..] == rest[i..];
      }
    }
  }
}
