/** Where a part stands in a text or in a list of tokens. */
module Places {

  /** `part` stands in `s` at `pos`. */
  predicate At<T(==)>(s: seq<T>, pos: nat, part: seq<T>) {
    pos + |part| <= |s| && s[pos..pos + |part|] == part
  }

  lemma AtJoin<T>(s: seq<T>, pos: nat, p: seq<T>, q: seq<T>)
    ensures At(s, pos, p + q) <==> At(s, pos, p) && At(s, pos + |p|, q)
  {
    if At(s, pos, p + q) {
      assert s[pos..pos + |p|] == s[pos..pos + |p + q|][..|p|];
      assert s[pos + |p|..pos + |p| + |q|] == s[pos..pos + |p + q|][|p|..];
    }
    if At(s, pos, p) && At(s, pos + |p|, q) {
      assert s[pos..pos + |p + q|] == s[pos..pos + |p|] + s[pos + |p|..pos + |p| + |q|];
    }
  }
}
