/** Sequence helpers shared by the helper-object and outline bookkeeping. */
module Collections {

  /** `s` without the elements of `xs`, order kept: what is left of a
      parent's children after each of `xs` is removed from it. */
  function Without<T(==,!new)>(s: seq<T>, xs: seq<T>): (r: seq<T>)
    ensures forall x :: x in r <==> x in s && x !in xs
  {
    if |s| == 0 then []
    else
      var rest := Without(s[1..], xs);
      assert forall x :: x in s <==> x == s[0] || x in s[1..];
      if s[0] in xs then rest else [s[0]] + rest
  }

  lemma NoMembersMeansEmpty<T>(s: seq<T>)
    ensures (forall x :: x !in s) ==> s == []
  {
    if |s| > 0 {
      assert s[0] in s;
    }
  }
}
