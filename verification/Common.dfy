/** Vocabulary shared by the modules: optional values and sequences without repetition. */
module Common {

  datatype Option<+T> = None | Some(value: T)

  /** A map as one field of a record. */
  datatype Table<K(==), V> = Table(at: map<K, V>)

  ghost predicate NoDup<T>(s: seq<T>) {
    forall i, j :: 0 <= i < j < |s| ==> s[i] != s[j]
  }

  function AddOne<T(==)>(s: seq<T>, x: T): seq<T> {
    if x in s then s else s + [x]
  }

  /** The elements of s in the order in which each occurs first. */
  function Dedup<T(==)>(s: seq<T>): seq<T> {
    if s == [] then [] else AddOne(Dedup(s[..|s| - 1]), s[|s| - 1])
  }

  lemma {:induction false} DedupMembers<T>(s: seq<T>)
    ensures NoDup(Dedup(s))
    ensures forall x :: x in Dedup(s) <==> x in s
  {
    if s != [] {
      DedupMembers(s[..|s| - 1]);
      assert s == s[..|s| - 1] + [s[|s| - 1]];
    }
  }

  /** x occurs in s, and not before position i. */
  ghost predicate FirstAt<T>(s: seq<T>, i: nat, x: T) {
    i < |s| && s[i] == x && x !in s[..i]
  }

  /** Dedup keeps first-occurrence order. Together with DedupMembers this determines Dedup(s). */
  lemma {:induction false} DedupOrder<T>(s: seq<T>, a: nat, b: nat, i: nat, j: nat)
    requires i < j < |Dedup(s)|
    requires FirstAt(s, a, Dedup(s)[i]) && FirstAt(s, b, Dedup(s)[j])
    ensures a < b
  {
    var t := s[..|s| - 1];
    DedupMembers(t);
    DedupMembers(s);
    assert s == t + [s[|s| - 1]];
    if j < |Dedup(t)| {
      assert Dedup(t)[j] in t;
      assert Dedup(t)[i] in t;
      FirstInPrefix(s, t, a, Dedup(s)[i]);
      FirstInPrefix(s, t, b, Dedup(s)[j]);
      DedupOrder(t, a, b, i, j);
    } else {
      assert Dedup(t)[i] in t;
      FirstInPrefix(s, t, a, Dedup(s)[i]);
      assert s[b] !in t;
    }
  }

  lemma FirstInPrefix<T>(s: seq<T>, t: seq<T>, a: nat, x: T)
    requires t <= s && x in t && FirstAt(s, a, x)
    ensures a < |t| && FirstAt(t, a, x)
  {
    var k :| 0 <= k < |t| && t[k] == x;
    assert forall j :: 0 <= j < a ==> s[..a][j] == s[j];
    assert s[..a] == t[..a];
  }

  /** One element at a time: what an append-if-absent loop maintains. */
  lemma DedupSnoc<T>(s: seq<T>, x: T)
    ensures Dedup(s + [x]) == AddOne(Dedup(s), x)
  {
    assert (s + [x])[..|s|] == s;
  }

  /** The append-if-absent loop over xs. */
  function AddAbsent<T(==)>(s: seq<T>, xs: seq<T>): seq<T>
    decreases |xs|
  {
    if xs == [] then s else AddAbsent(AddOne(s, xs[0]), xs[1..])
  }

  lemma {:induction false} AddAbsentDedup<T>(s: seq<T>, xs: seq<T>)
    ensures AddAbsent(Dedup(s), xs) == Dedup(s + xs)
    decreases |xs|
  {
    if xs == [] {
      assert s + xs == s;
    } else {
      var t := s + [xs[0]];
      DedupSnoc(s, xs[0]);
      AddAbsentDedup(t, xs[1..]);
      assert t + xs[1..] == s + xs;
    }
  }

  /** s with every occurrence of x removed. */
  function Without<T(==)>(s: seq<T>, x: T): seq<T> {
    if s == [] then []
    else if s[0] == x then Without(s[1..], x)
    else [s[0]] + Without(s[1..], x)
  }

  lemma {:induction false} WithoutMembers<T>(s: seq<T>, x: T)
    requires NoDup(s)
    ensures NoDup(Without(s, x))
    ensures forall y :: y in Without(s, x) <==> y in s && y != x
  {
    if s != [] {
      assert s == [s[0]] + s[1..];
      assert NoDup(s[1..]) && s[0] !in s[1..];
      WithoutMembers(s[1..], x);
    }
  }

  lemma MulCancels(n: int, m: int, gap: int)
    requires gap > 0 && n * gap < m * gap
    ensures n < m
  {
    assert (m - n) * gap > 0;
  }
}
