/** What is said about sequences and maps in several places. */
module Collections {
  ghost predicate Distinct<T>(s: seq<T>) {
    forall i, j :: 0 <= i < j < |s| ==> s[i] != s[j]
  }

  lemma {:induction false} OnceEach<T>(s: seq<T>)
    ensures Distinct(s) <==> forall v :: v in s ==> multiset(s)[v] == 1
  {
    if s != [] {
      var rest := s[1..];
      assert s == [s[0]] + rest && multiset(s) == multiset{s[0]} + multiset(rest);
      OnceEach(rest);
      if Distinct(s) {
        forall v | v in s ensures multiset(s)[v] == 1 { assert v == s[0] ==> v !in rest; }
      }
      if forall v :: v in s ==> multiset(s)[v] == 1 {
        assert multiset(s)[s[0]] == 1;
        forall v | v in rest ensures multiset(rest)[v] == 1 { assert v in s; }
      }
    }
  }

  /** No two keys share a value. */
  ghost predicate Injective<K(!new), V(!new)>(m: map<K, V>) {
    forall a, b :: a in m && b in m && m[a] == m[b] ==> a == b
  }
}
