/**
 * The ranking half of `get_top_15_colors`: the dictionary's items are sorted
 * by count with `sorted(..., reverse=True)` and the first 15 colours are kept.
 * Python's sort is stable, also in reverse, so colours with equal counts stay
 * in dictionary order, which is the order of first occurrence in the scan.
 * The sort is modelled by an insertion sort with the same stability.
 */
module Ranking {
  import opened Pixels
  import opened Tally

  /** How many colours are reported. */
  const TopK: nat := 15

  /** Every colour has an entry in the table. */
  predicate Keyed(colors: seq<RGB>, counts: map<RGB, nat>)
  {
    forall c :: c in colors ==> c in counts
  }

  /**
   * Places `x` in front of the first colour whose count is not larger; in a
   * list sorted by descending count, `x` ends up after every colour with a
   * larger count and before those with the same count.
   */
  function InsertByCount(x: RGB, sorted: seq<RGB>, counts: map<RGB, nat>): (r: seq<RGB>)
    requires x in counts && Keyed(sorted, counts)
    ensures multiset(r) == multiset(sorted) + multiset{x}
    ensures forall c :: c in r <==> c == x || c in sorted
  {
    if sorted == [] || counts[sorted[0]] <= counts[x] then [x] + sorted
    else
      assert sorted == [sorted[0]] + sorted[1..];
      [sorted[0]] + InsertByCount(x, sorted[1..], counts)
  }

  /** `sorted(items, key=count, reverse=True)`, reading counts from the table. */
  function SortByCount(colors: seq<RGB>, counts: map<RGB, nat>): (r: seq<RGB>)
    requires Keyed(colors, counts)
    ensures multiset(r) == multiset(colors)
    ensures forall c :: c in r <==> c in colors
  {
    if colors == [] then []
    else
      var rest := SortByCount(colors[1..], counts);
      assert colors == [colors[0]] + colors[1..];
      InsertByCount(colors[0], rest, counts)
  }

  /** The table `unique_color_counts` holds after scanning `scan`. */
  function CountTable(scan: seq<RGB>): (counts: map<RGB, nat>)
    ensures forall c :: c in counts <==> c in scan
    ensures forall c :: c in counts ==> counts[c] == Count(scan, c)
  {
    map c | c in scan :: Count(scan, c)
  }

  /** The first 15 entries of the sorted list, or all of them when fewer. */
  function TopColors(img: Image): seq<RGB>
  {
    var scan := Flatten(img);
    var counts := CountTable(scan);
    var ranked := SortByCount(FirstSeen(scan), counts);
    if |ranked| <= TopK then ranked else ranked[..TopK]
  }

  /**
   * `a` is listed before `b`: it occurs more often in the scan, or as often
   * and first occurs earlier.
   */
  ghost predicate Before(a: RGB, b: RGB, scan: seq<RGB>)
    requires a in scan && b in scan
  {
    Count(scan, a) > Count(scan, b) ||
    (Count(scan, a) == Count(scan, b) && FirstIndex(scan, a) < FirstIndex(scan, b))
  }

  /** Every pair of positions of `r` is in `Before` order. */
  ghost predicate RankedBy(r: seq<RGB>, scan: seq<RGB>)
  {
    && (forall c :: c in r ==> c in scan)
    && (forall i, j :: 0 <= i < j < |r| ==> Before(r[i], r[j], scan))
  }

  /**
   * The order promised among reported colours: no colour twice, only colours
   * of the image, counts non-increasing, ties in order of first occurrence,
   * and no colour left out that would rank before the last one reported.
   */
  ghost predicate RankedSelection(top: seq<RGB>, scan: seq<RGB>)
  {
    && NoDuplicates(top)
    && (forall c :: c in top ==> c in scan)
    && (forall i, j :: 0 <= i < j < |top| ==> Count(scan, top[i]) >= Count(scan, top[j]))
    && (forall i, j :: 0 <= i < j < |top| && Count(scan, top[i]) == Count(scan, top[j]) ==>
          FirstIndex(scan, top[i]) < FirstIndex(scan, top[j]))
    && (forall c :: c in scan && c !in top ==> top != [] && Before(top[|top| - 1], c, scan))
  }

  /**
   * What `get_top_15_colors` promises about its result `top` for a scan:
   * min(15, number of distinct colours) entries, in ranked order.
   */
  ghost predicate IsTopColors(top: seq<RGB>, scan: seq<RGB>)
  {
    && |top| == (if |set c | c in scan| <= TopK then |set c | c in scan| else TopK)
    && RankedSelection(top, scan)
  }

  /** A colour ranked before every entry of a ranked list can lead it. */
  lemma RankedCons(a: RGB, r: seq<RGB>, scan: seq<RGB>)
    requires a in scan && RankedBy(r, scan)
    requires forall c :: c in r ==> Before(a, c, scan)
    ensures RankedBy([a] + r, scan)
  {
    var r' := [a] + r;
    forall i, j | 0 <= i < j < |r'| ensures Before(r'[i], r'[j], scan) {
      if i == 0 {
        assert r'[j] in r;
      } else {
        assert r'[i] == r[i - 1] && r'[j] == r[j - 1];
      }
    }
  }

  /** The entries after the head of a ranked list are ranked too. */
  lemma RankedTail(r: seq<RGB>, scan: seq<RGB>)
    requires r != [] && RankedBy(r, scan)
    ensures RankedBy(r[1..], scan)
    ensures forall c :: c in r[1..] ==> Before(r[0], c, scan)
  {
    forall i, j | 0 <= i < j < |r[1..]| ensures Before(r[1..][i], r[1..][j], scan) {
      assert r[1..][i] == r[i + 1] && r[1..][j] == r[j + 1];
    }
    forall c | c in r[1..] ensures Before(r[0], c, scan) {
      var k :| 0 <= k < |r[1..]| && r[1..][k] == c;
      assert r[k + 1] == c;
    }
  }

  /** Inserting a colour that first occurs before all of `sorted` keeps the order. */
  lemma {:induction false} InsertRanked(x: RGB, sorted: seq<RGB>, scan: seq<RGB>)
    requires x in scan && RankedBy(sorted, scan)
    requires forall c :: c in sorted ==> FirstIndex(scan, x) < FirstIndex(scan, c)
    ensures RankedBy(InsertByCount(x, sorted, CountTable(scan)), scan)
  {
    var counts := CountTable(scan);
    if sorted == [] {
      RankedCons(x, sorted, scan);
    } else {
      RankedTail(sorted, scan);
      var head := sorted[0];
      assert sorted == [head] + sorted[1..];
      if counts[head] <= counts[x] {
        forall c | c in sorted ensures Before(x, c, scan) {
          assert c == head || Before(head, c, scan);
        }
        RankedCons(x, sorted, scan);
      } else {
        var tail := InsertByCount(x, sorted[1..], counts);
        InsertRanked(x, sorted[1..], scan);
        forall c | c in tail ensures Before(head, c, scan) {
          assert c == x || c in sorted[1..];
        }
        RankedCons(head, tail, scan);
      }
    }
  }

  /**
   * Sorting colours listed in order of first occurrence yields the `Before`
   * order: descending count, ties by first occurrence.
   */
  lemma {:induction false} SortRanked(colors: seq<RGB>, scan: seq<RGB>)
    requires forall c :: c in colors ==> c in scan
    requires forall i, j :: 0 <= i < j < |colors| ==> FirstIndex(scan, colors[i]) < FirstIndex(scan, colors[j])
    ensures RankedBy(SortByCount(colors, CountTable(scan)), scan)
  {
    if colors != [] {
      var counts := CountTable(scan);
      var rest := SortByCount(colors[1..], counts);
      SortRanked(colors[1..], scan);
      forall c | c in rest ensures FirstIndex(scan, colors[0]) < FirstIndex(scan, c) {
        assert c in multiset(colors[1..]);
        var k :| 0 <= k < |colors[1..]| && colors[1..][k] == c;
        assert colors[k + 1] == c;
      }
      InsertRanked(colors[0], rest, scan);
    }
  }

  /** The colours of the image, each once, in descending `Before` order. */
  lemma RankedScan(scan: seq<RGB>)
    ensures var ranked := SortByCount(FirstSeen(scan), CountTable(scan));
      && RankedBy(ranked, scan)
      && (forall c :: c in ranked <==> c in scan)
      && |ranked| == |set c | c in scan|
  {
    var fs := FirstSeen(scan);
    var ranked := SortByCount(fs, CountTable(scan));
    FirstSeenInScanOrder(scan);
    SortRanked(fs, scan);
    DistinctCount(scan);
    assert |ranked| == |multiset(ranked)| == |multiset(fs)|;
    forall c ensures c in ranked <==> c in scan {
      assert c in ranked <==> c in multiset(ranked);
    }
  }

  /** Cutting a ranked list after 15 entries keeps its order and leaves out only lower-ranked colours. */
  lemma RankedPrefix(ranked: seq<RGB>, top: seq<RGB>, scan: seq<RGB>)
    requires RankedBy(ranked, scan)
    requires forall c :: c in ranked <==> c in scan
    requires top == if |ranked| <= TopK then ranked else ranked[..TopK]
    ensures RankedSelection(top, scan)
  {
    assert forall i :: 0 <= i < |top| ==> top[i] == ranked[i];
    forall i, j | 0 <= i < j < |top| ensures top[i] != top[j] {
      assert Before(ranked[i], ranked[j], scan);
    }
    forall c | c in scan && c !in top ensures top != [] && Before(top[|top| - 1], c, scan) {
      var k :| 0 <= k < |ranked| && ranked[k] == c;
      assert Before(ranked[TopK - 1], ranked[k], scan);
    }
  }

  /** The result of `get_top_15_colors` has every promised property. */
  lemma TopColorsSpec(img: Image)
    ensures IsTopColors(TopColors(img), Flatten(img))
  {
    var scan := Flatten(img);
    var ranked := SortByCount(FirstSeen(scan), CountTable(scan));
    var top := TopColors(img);
    assert top == if |ranked| <= TopK then ranked else ranked[..TopK];
    RankedScan(scan);
    RankedPrefix(ranked, top, scan);
  }

  /**
   * `get_top_15_colors`: the counting loops, then the stable sort by
   * descending count, then the slice `[:15]`.
   */
  method GetTop15Colors(img: Image) returns (top: seq<RGB>)
    ensures top == TopColors(img)
    ensures IsTopColors(top, Flatten(img))
  {
    var counts, order := TallyColors(img);
    assert counts == CountTable(Flatten(img));
    var ranked := SortByCount(order, counts);
    top := if |ranked| <= TopK then ranked else ranked[..TopK];
    TopColorsSpec(img);
  }

  /** `Before` is a strict order: transitive and never both ways. */
  lemma BeforeTransitive(a: RGB, b: RGB, c: RGB, scan: seq<RGB>)
    requires a in scan && b in scan && c in scan
    requires Before(a, b, scan) && Before(b, c, scan)
    ensures Before(a, c, scan)
  {
  }

  /**
   * In a ranked selection, the colour at position `i` comes before every
   * colour of the scan that is not among the first `i + 1` entries.
   */
  lemma SelectionLeads(top: seq<RGB>, scan: seq<RGB>, i: nat, c: RGB)
    requires RankedSelection(top, scan)
    requires i < |top| && c in scan && c !in top[..i] && c != top[i]
    ensures Before(top[i], c, scan)
  {
    if c in top {
      var j :| 0 <= j < |top| && top[j] == c;
    } else {
      var last := |top| - 1;
      if i < last {
        BeforeTransitive(top[i], top[last], c, scan);
      }
    }
  }

  /** Two lists that both meet the promise agree on their first `n` entries. */
  lemma {:induction false} SelectionPrefixUnique(a: seq<RGB>, b: seq<RGB>, scan: seq<RGB>, n: nat)
    requires IsTopColors(a, scan) && IsTopColors(b, scan)
    requires n <= |a|
    ensures |a| == |b| && a[..n] == b[..n]
  {
    if n > 0 {
      SelectionPrefixUnique(a, b, scan, n - 1);
      var i := n - 1;
      if a[i] != b[i] {
        assert b[i] !in a[..i];
        assert a[i] !in b[..i];
        SelectionLeads(a, scan, i, b[i]);
        SelectionLeads(b, scan, i, a[i]);
        assert false;
      }
      assert a[..n] == a[..i] + [a[i]] && b[..n] == b[..i] + [b[i]];
    }
  }

  /**
   * The promise determines the result: any list with the promised length and
   * order is exactly what `get_top_15_colors` returns, so the tie-break makes
   * the output reproducible.
   */
  lemma TopColorsUnique(top: seq<RGB>, img: Image)
    requires IsTopColors(top, Flatten(img))
    ensures top == TopColors(img)
  {
    var result := TopColors(img);
    TopColorsSpec(img);
    SelectionPrefixUnique(top, result, Flatten(img), |top|);
    assert top == top[..|top|] && result == result[..|result|];
  }

  lemma {:induction false} CountAll(s: seq<RGB>, c: RGB)
    requires forall x :: x in s ==> x == c
    ensures Count(s, c) == |s|
  {
    if s != [] {
      var init := s[..|s| - 1];
      assert forall x :: x in init ==> x in s;
      assert s[|s| - 1] in s;
      CountAll(init, c);
    }
  }

  lemma FirstSeenConstant(s: seq<RGB>, c: RGB)
    requires c in s && forall x :: x in s ==> x == c
    ensures FirstSeen(s) == [c]
  {
    var fs := FirstSeen(s);
    DistinctCount(s);
    assert (set x | x in s) == {c};
    assert fs[0] in fs;
  }

  /** An image of a single colour ranks that colour alone, counted once per pixel. */
  lemma UniformImage(img: Image, c: RGB)
    requires forall i, j :: 0 <= i < |img| && 0 <= j < |img[i]| ==> img[i][j] == c
    requires PixelCount(img) > 0
    ensures TopColors(img) == [c]
    ensures Count(Flatten(img), c) == PixelCount(img)
  {
    var scan := Flatten(img);
    forall x | x in scan ensures x == c {
      InFlatten(img, x);
    }
    assert c in scan by {
      assert scan[0] in scan;
    }
    CountAll(scan, c);
    FirstSeenConstant(scan, c);
    assert SortByCount([c], CountTable(scan)) == [c];
  }
}
