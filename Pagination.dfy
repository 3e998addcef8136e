/** The cursor operations `.skip(n)` and `.limit(n)` of a store query, and
    pages built from them. */
module Pagination {
  import opened UserModel

  function Min(a: int, b: int): int
  {
    if a <= b then a else b
  }

  /** `.skip(n)`: the documents after the first n, in order. */
  function Skip<T>(xs: seq<T>, n: nat): (r: seq<T>)
    ensures |r| == if n <= |xs| then |xs| - n else 0
    ensures forall i :: 0 <= i < |r| ==> r[i] == xs[n + i]
  {
    if n <= |xs| then xs[n..] else []
  }

  /** `.limit(n)` for a positive n: at most the first n documents, in order. */
  function Limit<T>(xs: seq<T>, n: PosInt): (r: seq<T>)
    ensures |r| == Min(n, |xs|)
    ensures r <= xs
  {
    if n <= |xs| then xs[..n] else xs
  }

  /** How many documents page `page` skips. */
  function SkipCount(page: PosInt, limit: PosInt): (n: nat)
    ensures n == 0 <==> page == 1
  {
    (page - 1) * limit
  }

  /** Page `page + 1` starts exactly `limit` documents after page `page`. */
  lemma SkipCountStep(page: PosInt, limit: PosInt)
    ensures SkipCount(page + 1, limit) == SkipCount(page, limit) + limit
  {
  }

  /** Later pages start at least one full page further on. */
  lemma {:induction false} SkipCountMonotone(p: PosInt, q: PosInt, limit: PosInt)
    requires p < q
    ensures SkipCount(p, limit) + limit <= SkipCount(q, limit)
    decreases q - p
  {
    SkipCountStep(q - 1, limit);
    if p < q - 1 {
      SkipCountMonotone(p, q - 1, limit);
    }
  }

  /** Page `page` of `xs`: skip `(page - 1) * limit`, then take at most `limit`. */
  function Page<T>(xs: seq<T>, page: PosInt, limit: PosInt): (r: seq<T>)
    ensures |r| <= limit
    ensures forall j :: 0 <= j < |r| ==> SkipCount(page, limit) + j < |xs| && r[j] == xs[SkipCount(page, limit) + j]
    ensures SkipCount(page, limit) >= |xs| <==> r == []
  {
    Limit(Skip(xs, SkipCount(page, limit)), limit)
  }

  /** A page is the slice of `xs` between its skip count and one page further. */
  lemma PageIsSlice<T>(xs: seq<T>, page: PosInt, limit: PosInt)
    ensures var s := SkipCount(page, limit);
      Page(xs, page, limit) == xs[Min(s, |xs|)..Min(s + limit, |xs|)]
  {
  }

  /** Pages 1 to k, concatenated. */
  function FirstPages<T>(xs: seq<T>, k: nat, limit: PosInt): seq<T>
  {
    if k == 0 then [] else FirstPages(xs, k - 1, limit) + Page(xs, k, limit)
  }

  /** Two adjacent clipped slices join into one. */
  lemma ClippedSlicesJoin<T>(xs: seq<T>, a: nat, b: nat)
    requires a <= b
    ensures xs[..Min(a, |xs|)] + xs[Min(a, |xs|)..Min(b, |xs|)] == xs[..Min(b, |xs|)]
  {
  }

  /** Pages 1 to k together hold exactly the documents before page k + 1,
      each once and in order: consecutive pages neither overlap nor leave gaps. */
  lemma {:induction false} FirstPagesArePrefix<T>(xs: seq<T>, k: nat, limit: PosInt)
    ensures FirstPages(xs, k, limit) == xs[..Min(SkipCount(k + 1, limit), |xs|)]
  {
    if k > 0 {
      var lo := SkipCount(k, limit);
      var hi := SkipCount(k + 1, limit);
      FirstPagesArePrefix(xs, k - 1, limit);
      assert FirstPages(xs, k - 1, limit) == xs[..Min(lo, |xs|)];
      SkipCountStep(k, limit);
      PageIsSlice(xs, k, limit);
      assert Page(xs, k, limit) == xs[Min(lo, |xs|)..Min(hi, |xs|)];
      ClippedSlicesJoin(xs, lo, hi);
    }
  }

  /** The window of page `page` covers index i. */
  predicate Covers(page: PosInt, limit: PosInt, i: int)
  {
    SkipCount(page, limit) <= i < SkipCount(page, limit) + limit
  }

  /** Every index lies in the window of some page. */
  lemma {:induction false} CoveringPage(i: nat, limit: PosInt) returns (page: PosInt)
    ensures Covers(page, limit, i)
    decreases i
  {
    if i < limit {
      page := 1;
    } else {
      var earlier := CoveringPage(i - limit, limit);
      SkipCountStep(earlier, limit);
      page := earlier + 1;
    }
  }

  /** Every document lies on some page whose window covers its index i,
      and it is entry i - SkipCount(page, limit) of that page. */
  lemma DocumentOnPage<T>(xs: seq<T>, i: nat, limit: PosInt) returns (page: PosInt)
    requires i < |xs|
    ensures Covers(page, limit, i)
    ensures i - SkipCount(page, limit) < |Page(xs, page, limit)|
    ensures Page(xs, page, limit)[i - SkipCount(page, limit)] == xs[i]
  {
    page := CoveringPage(i, limit);
    PageIsSlice(xs, page, limit);
  }

  /** No document lies on two pages. */
  lemma OnOnePage(i: int, limit: PosInt, p: PosInt, q: PosInt)
    requires Covers(p, limit, i) && Covers(q, limit, i)
    ensures p == q
  {
    if p < q {
      SkipCountMonotone(p, q, limit);
    } else if q < p {
      SkipCountMonotone(q, p, limit);
    }
  }

  /** One more document behind a skip and a limit joins the result exactly
      when the skip is used up and the limit is not yet reached. */
  lemma WindowAppend<T>(xs: seq<T>, x: T, skip: nat, limit: PosInt)
    ensures Limit(Skip(xs + [x], skip), limit)
         == Limit(Skip(xs, skip), limit)
            + (if skip <= |xs| && |Limit(Skip(xs, skip), limit)| < limit then [x] else [])
  {
  }
}
