/** Python's `xs[-n:]` on lists. */
module Lists {

  /**
   * The last `n` elements of `s` in their original order, or all of `s` when
   * it is shorter: Python's `s[-n:]` for `n >= 1` (for `n == 0` Python gives all
   * of `s`, a case the bot never uses).
   */
  function LastN<T>(s: seq<T>, n: nat): (r: seq<T>)
    requires n > 0
    ensures |r| == if |s| <= n then |s| else n
    ensures forall i :: 0 <= i < |r| ==> r[i] == s[|s| - |r| + i]
  {
    if |s| <= n then s else s[|s| - n..]
  }

  /** Taking the last `m` of the last `n` is taking the last `m`, when `m <= n`. */
  lemma LastNOfLastN<T>(s: seq<T>, n: nat, m: nat)
    requires 0 < m <= n
    ensures LastN(LastN(s, n), m) == LastN(s, m)
  {
    var a := LastN(LastN(s, n), m);
    var b := LastN(s, m);
    assert |a| == |b|;
    forall i | 0 <= i < |a| ensures a[i] == b[i] {
    }
  }
}
