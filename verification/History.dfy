/** Histories of marked items: what was offered to a bounded queue and whether it was kept, or what was written to a
    sink and whether the write succeeded. */
module History {

  datatype Mark<+T> = Mark(item: T, ok: bool)

  function Items<T>(h: seq<Mark<T>>): (r: seq<T>)
    ensures |r| == |h| && forall i | 0 <= i < |h| :: r[i] == h[i].item
  {
    seq(|h|, i requires 0 <= i < |h| => h[i].item)
  }

  function Count<T>(h: seq<Mark<T>>, ok: bool): (n: nat)
    ensures n <= |h|
  {
    if h == [] then 0
    else Count(h[..|h| - 1], ok) + (if h[|h| - 1].ok == ok then 1 else 0)
  }

  /** The items that were kept, in order: the history with exactly the refused ones deleted. */
  function Kept<T>(h: seq<Mark<T>>): (r: seq<T>)
    ensures |r| == Count(h, true)
  {
    if h == [] then []
    else if h[|h| - 1].ok then Kept(h[..|h| - 1]) + [h[|h| - 1].item]
    else Kept(h[..|h| - 1])
  }

  lemma Snoc<T>(h: seq<Mark<T>>, m: Mark<T>)
    ensures Items(h + [m]) == Items(h) + [m.item]
    ensures Kept(h + [m]) == Kept(h) + (if m.ok then [m.item] else [])
    ensures forall b :: Count(h + [m], b) == Count(h, b) + (if m.ok == b then 1 else 0)
  {
    assert (h + [m])[..|h|] == h;
  }

  lemma AppendAssoc<T>(a: seq<T>, b: seq<T>, c: seq<T>)
    ensures a + (b + c) == a + b + c
  {
  }

  lemma CountsAddUp<T>(h: seq<Mark<T>>)
    ensures Count(h, true) + Count(h, false) == |h|
  {
  }

  lemma NothingLost<T>(h: seq<Mark<T>>)
    requires Count(h, false) == 0
    ensures Kept(h) == Items(h)
  {
    if h != [] {
      NothingLost(h[..|h| - 1]);
    }
  }

  // ---- subsequences ----

  /** `f` maps the positions of `a`, in order, to positions of `b` that hold the same items. */
  predicate Embeds<T(==)>(f: seq<nat>, a: seq<T>, b: seq<T>) {
    && |f| == |a|
    && (forall i | 0 <= i < |f| :: f[i] < |b| && b[f[i]] == a[i])
    && (forall i, j | 0 <= i < j < |f| :: f[i] < f[j])
  }

  ghost predicate Subsequence<T>(a: seq<T>, b: seq<T>) {
    exists f :: Embeds(f, a, b)
  }

  lemma KeptIsSubsequence<T>(h: seq<Mark<T>>)
    ensures Subsequence(Kept(h), Items(h))
  {
    var f := KeptAt(h);
  }

  lemma EmbedsSnoc<T>(f: seq<nat>, a: seq<T>, b: seq<T>, x: T)
    requires Embeds(f, a, b)
    ensures Embeds(f, a, b + [x]) && Embeds(f + [|b|], a + [x], b + [x])
  {
  }

  lemma {:induction false} KeptAt<T>(h: seq<Mark<T>>) returns (f: seq<nat>)
    ensures Embeds(f, Kept(h), Items(h))
    decreases |h|
  {
    f := [];
    if h != [] {
      hide Embeds, Kept;
      var last := |h| - 1;
      var g := KeptAt(h[..last]);
      Snoc(h[..last], h[last]);
      assert h == h[..last] + [h[last]];
      EmbedsSnoc(g, Kept(h[..last]), Items(h[..last]), h[last].item);
      f := if h[last].ok then g + [last] else g;
    }
  }

  lemma SubsequenceTransitive<T>(a: seq<T>, b: seq<T>, c: seq<T>)
    requires Subsequence(a, b) && Subsequence(b, c)
    ensures Subsequence(a, c)
  {
    var f :| Embeds(f, a, b);
    var g :| Embeds(g, b, c);
    var fg := seq(|a|, i requires 0 <= i < |a| => g[f[i]]);
    assert Embeds(fg, a, c);
  }

  lemma SubsequenceAppend<T>(a: seq<T>, b: seq<T>, a': seq<T>, b': seq<T>)
    requires Subsequence(a, b) && Subsequence(a', b')
    ensures Subsequence(a + a', b + b')
  {
    var f: seq<nat> :| Embeds(f, a, b);
    var g: seq<nat> :| Embeds(g, a', b');
    var shifted: seq<nat> := seq(|g|, i requires 0 <= i < |g| => |b| + g[i]);
    assert Embeds(f + shifted, a + a', b + b');
  }

  lemma PrefixIsSubsequence<T>(a: seq<T>, b: seq<T>)
    requires a <= b
    ensures Subsequence(a, b)
  {
    var f := seq(|a|, i => i);
    assert Embeds(f, a, b);
  }
}
