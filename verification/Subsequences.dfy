/** Subsequences, by the positions they are taken from. */
module Subsequences {

  ghost predicate Embeds<T>(s: seq<T>, t: seq<T>, f: seq<nat>) {
    && |f| == |s|
    && (forall i :: 0 <= i < |f| ==> f[i] < |t| && s[i] == t[f[i]])
    && (forall i, j :: 0 <= i < j < |f| ==> f[i] < f[j])
  }

  /** s is t with some elements left out. */
  ghost predicate Subseq<T(!new)>(s: seq<T>, t: seq<T>) {
    exists f: seq<nat> :: Embeds(s, t, f)
  }

  function Count(from: nat, n: nat): (f: seq<nat>)
    ensures |f| == n && forall i :: 0 <= i < n ==> f[i] == from + i
  {
    seq(n, i requires 0 <= i < n => from + i)
  }

  lemma SubseqSelf<T(!new)>(s: seq<T>)
    ensures Subseq(s, s)
  {
    assert Embeds(s, s, Count(0, |s|));
  }

  lemma SubseqAppend<T(!new)>(s: seq<T>, t: seq<T>, x: seq<T>)
    requires Subseq(s, t)
    ensures Subseq(s + x, t + x)
  {
    var f: seq<nat> :| Embeds(s, t, f);
    assert Embeds(s + x, t + x, f + Count(|t|, |x|));
  }

  lemma SubseqWithout<T(!new)>(x: seq<T>, y: seq<T>, z: seq<T>, t: seq<T>)
    requires Subseq(x + (y + z), t)
    ensures Subseq(x + z, t)
  {
    var f: seq<nat> :| Embeds(x + (y + z), t, f);
    var g := f[..|x|] + f[|x| + |y|..];
    forall i | 0 <= i < |g|
      ensures g[i] < |t| && (x + z)[i] == t[g[i]]
    {
      var j := if i < |x| then i else i + |y|;
      assert g[i] == f[j] && (x + z)[i] == (x + (y + z))[j];
    }
    assert Embeds(x + z, t, g);
  }

  lemma SubseqLonger<T(!new)>(s: seq<T>, t: seq<T>, x: seq<T>)
    requires Subseq(s, t)
    ensures Subseq(s, t + x)
  {
    var f :| Embeds(s, t, f);
    assert Embeds(s, t + x, f);
  }

  lemma SubseqTransitive<T(!new)>(s: seq<T>, t: seq<T>, u: seq<T>)
    requires Subseq(s, t) && Subseq(t, u)
    ensures Subseq(s, u)
  {
    var f, g :| Embeds(s, t, f) && Embeds(t, u, g);
    var h := seq(|s|, i requires 0 <= i < |s| => g[f[i]]);
    assert Embeds(s, u, h);
  }
}
