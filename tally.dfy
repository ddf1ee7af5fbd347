/**
 * The counting half of `get_top_15_colors`: one pass over the rows of the
 * image and, inside each row, over its pixels, incrementing a
 * `defaultdict(int)` keyed by the pixel's colour. Python dictionaries keep
 * insertion order, so the table is modelled as a map of counts together with
 * the sequence of colours in the order they were first inserted.
 */
module Tally {
  import opened Pixels

  /** Occurrences of `x` in `s`. */
  function Count(s: seq<RGB>, x: RGB): nat
  {
    if s == [] then 0
    else Count(s[..|s| - 1], x) + (if s[|s| - 1] == x then 1 else 0)
  }

  /** The distinct elements of `s`, each where it first occurs. */
  function FirstSeen(s: seq<RGB>): (r: seq<RGB>)
    ensures forall x :: x in r <==> x in s
    ensures NoDuplicates(r)
  {
    if s == [] then []
    else
      var seen := FirstSeen(s[..|s| - 1]);
      assert s == s[..|s| - 1] + [s[|s| - 1]];
      if s[|s| - 1] in s[..|s| - 1] then seen else seen + [s[|s| - 1]]
  }

  /** Position of the first occurrence of `x` in `s`. */
  function FirstIndex(s: seq<RGB>, x: RGB): (k: nat)
    requires x in s
    ensures k < |s| && s[k] == x
    ensures forall j :: 0 <= j < k ==> s[j] != x
  {
    if x in s[..|s| - 1] then FirstIndex(s[..|s| - 1], x) else |s| - 1
  }

  predicate NoDuplicates(s: seq<RGB>)
  {
    forall i, j :: 0 <= i < j < |s| ==> s[i] != s[j]
  }

  /** What the table holds after scanning `s`. */
  ghost predicate Tallied(counts: map<RGB, nat>, order: seq<RGB>, s: seq<RGB>)
  {
    && (forall c :: c in counts <==> c in s)
    && (forall c :: c in counts ==> counts[c] == Count(s, c))
    && order == FirstSeen(s)
  }

  /** The sum of the counts of `colors`, read from the table. */
  function TotalCount(colors: seq<RGB>, counts: map<RGB, nat>): nat
    requires forall c :: c in colors ==> c in counts
  {
    if colors == [] then 0
    else TotalCount(colors[..|colors| - 1], counts) + counts[colors[|colors| - 1]]
  }

  /**
   * One `unique_color_counts[tuple(rgb)] += 1` keeps the table in step with
   * the scan: `counts'` and `order'` are the table after the increment.
   */
  lemma TallyStep(counts: map<RGB, nat>, order: seq<RGB>, s: seq<RGB>, px: RGB,
                  counts': map<RGB, nat>, order': seq<RGB>)
    requires Tallied(counts, order, s)
    requires counts' == counts[px := (if px in counts then counts[px] else 0) + 1]
    requires order' == if px in counts then order else order + [px]
    ensures Tallied(counts', order', s + [px])
  {
    var s' := s + [px];
    assert s'[..|s|] == s;
    forall c ensures c in counts' <==> c in s' {
      assert c in s' <==> c in s || c == px;
    }
    forall c | c in counts' ensures counts'[c] == Count(s', c) {
      if c == px && px !in s {
        CountAbsent(s, px);
      }
    }
    assert FirstSeen(s') == if px in s then FirstSeen(s) else FirstSeen(s) + [px];
  }

  /** Appending the next pixel of a row extends the scanned prefix of that row. */
  lemma ScanExtend(done: seq<RGB>, row: seq<RGB>, j: nat)
    requires j < |row|
    ensures done + row[..j] + [row[j]] == done + row[..j + 1]
  {
    assert row[..j + 1] == row[..j] + [row[j]];
  }

  /**
   * The counting loops. The outer loop variable is called `column` in the
   * source, but it runs over the first index of the pixel array, which is the
   * row, so the scan is row-major.
   */
  method TallyColors(img: Image) returns (counts: map<RGB, nat>, order: seq<RGB>)
    ensures forall c :: c in counts <==> c in Flatten(img)
    ensures forall c :: c in counts ==> counts[c] == Count(Flatten(img), c)
    ensures order == FirstSeen(Flatten(img))
  {
    counts, order := map[], [];
    ghost var done: seq<RGB> := [];
    var i := 0;
    while i < |img|
      invariant 0 <= i <= |img|
      invariant done == Flatten(img[..i])
      invariant Tallied(counts, order, done)
    {
      var row := img[i];
      ghost var scanned := done;
      var j := 0;
      while j < |row|
        invariant 0 <= j <= |row|
        invariant scanned == done + row[..j]
        invariant Tallied(counts, order, scanned)
      {
        var px := row[j];
        ghost var counts0, order0 := counts, order;
        var n := if px in counts then counts[px] else 0;
        if px !in counts {
          order := order + [px];
        }
        counts := counts[px := n + 1];
        TallyStep(counts0, order0, scanned, px, counts, order);
        ScanExtend(done, row, j);
        scanned := scanned + [px];
        j := j + 1;
      }
      FlattenExtend(img, i, j);
      done := scanned;
      i := i + 1;
    }
    assert img[..i] == img;
  }

  /** After the whole of row `i`, the scan has covered the first `i + 1` rows. */
  lemma FlattenExtend(img: Image, i: nat, j: nat)
    requires i < |img| && j == |img[i]|
    ensures Flatten(img[..i + 1]) == Flatten(img[..i]) + img[i][..j]
  {
    assert img[..i + 1][..i] == img[..i];
    assert img[i][..j] == img[i];
  }

  // Properties of the first-seen order and of the counts.

  lemma {:induction false} CountAbsent(s: seq<RGB>, x: RGB)
    requires x !in s
    ensures Count(s, x) == 0
  {
    if s != [] {
      CountAbsent(s[..|s| - 1], x);
    }
  }

  lemma {:induction false} CountPresent(s: seq<RGB>, x: RGB)
    requires x in s
    ensures Count(s, x) > 0
  {
    var init := s[..|s| - 1];
    if s[|s| - 1] != x {
      assert x in init;
      CountPresent(init, x);
    }
  }

  /** Insertion order is the order of first occurrence in the scan. */
  lemma {:induction false} FirstSeenInScanOrder(s: seq<RGB>)
    ensures forall i, j :: 0 <= i < j < |FirstSeen(s)| ==>
      FirstIndex(s, FirstSeen(s)[i]) < FirstIndex(s, FirstSeen(s)[j])
  {
    if s != [] {
      var init := s[..|s| - 1];
      var last := s[|s| - 1];
      FirstSeenInScanOrder(init);
      var fs := FirstSeen(s);
      forall x | x in init ensures FirstIndex(s, x) == FirstIndex(init, x) {
        FirstIndexOfPrefix(s, x);
      }
      forall i, j | 0 <= i < j < |fs| ensures FirstIndex(s, fs[i]) < FirstIndex(s, fs[j]) {
        if j == |fs| - 1 && last !in init {
          assert fs[i] in init;
        } else {
          assert fs[i] == FirstSeen(init)[i] && fs[j] == FirstSeen(init)[j];
        }
      }
    }
  }

  lemma FirstIndexOfPrefix(s: seq<RGB>, x: RGB)
    requires s != [] && x in s[..|s| - 1]
    ensures FirstIndex(s, x) == FirstIndex(s[..|s| - 1], x)
  {
  }

  /** The number of distinct colours is the length of the first-seen order. */
  lemma {:induction false} DistinctCount(s: seq<RGB>)
    ensures |set x | x in s| == |FirstSeen(s)|
  {
    if s != [] {
      var init := s[..|s| - 1];
      var last := s[|s| - 1];
      DistinctCount(init);
      assert s == init + [last];
      if last in init {
        assert (set x | x in s) == (set x | x in init);
      } else {
        assert (set x | x in s) == (set x | x in init) + {last};
      }
    }
  }

  /** Occurrences of each element of a first-seen order, summed over it. */
  function SumOfCounts(q: seq<RGB>, s: seq<RGB>): nat
  {
    if q == [] then 0 else SumOfCounts(q[..|q| - 1], s) + Count(s, q[|q| - 1])
  }

  lemma {:induction false} SumOfCountsStep(q: seq<RGB>, s: seq<RGB>, x: RGB)
    ensures SumOfCounts(q, s + [x]) == SumOfCounts(q, s) + Count(q, x)
  {
    assert (s + [x])[..|s|] == s;
    if q != [] {
      SumOfCountsStep(q[..|q| - 1], s, x);
    }
  }

  lemma {:induction false} CountInFirstSeen(s: seq<RGB>, x: RGB)
    ensures Count(FirstSeen(s), x) == if x in s then 1 else 0
  {
    if s != [] {
      var init := s[..|s| - 1];
      var last := s[|s| - 1];
      CountInFirstSeen(init, x);
      assert s == init + [last];
      var fs := FirstSeen(init);
      if last !in init {
        assert (fs + [last])[..|fs|] == fs;
      }
    }
  }

  /** Every pixel is counted exactly once: the counts add up to the pixel count. */
  lemma {:induction false} CountsAddUp(s: seq<RGB>)
    ensures SumOfCounts(FirstSeen(s), s) == |s|
  {
    if s != [] {
      var init := s[..|s| - 1];
      var last := s[|s| - 1];
      var fs := FirstSeen(init);
      CountsAddUp(init);
      assert s == init + [last];
      SumOfCountsStep(fs, init, last);
      CountInFirstSeen(init, last);
      if last !in init {
        assert (fs + [last])[..|fs|] == fs;
        CountAbsent(init, last);
        assert (init + [last])[..|init|] == init;
      }
    }
  }

  lemma {:induction false} TotalCountIsSum(colors: seq<RGB>, counts: map<RGB, nat>, s: seq<RGB>)
    requires forall c :: c in colors ==> c in counts && counts[c] == Count(s, c)
    ensures TotalCount(colors, counts) == SumOfCounts(colors, s)
  {
    if colors != [] {
      TotalCountIsSum(colors[..|colors| - 1], counts, s);
    }
  }

  /** The table built by the loops counts every pixel of the image exactly once. */
  lemma TallyTotal(img: Image, counts: map<RGB, nat>, order: seq<RGB>)
    requires forall c :: c in counts <==> c in Flatten(img)
    requires forall c :: c in counts ==> counts[c] == Count(Flatten(img), c)
    requires order == FirstSeen(Flatten(img))
    ensures forall c :: c in order ==> c in counts
    ensures TotalCount(order, counts) == PixelCount(img)
  {
    var s := Flatten(img);
    TotalCountIsSum(order, counts, s);
    CountsAddUp(s);
  }
}
