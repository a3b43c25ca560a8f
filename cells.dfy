/**
 * The cell list (`Boxes`) as the force loop sees it: the number of boxes,
 * for each box the boxes it pairs with, and for each box the particles it
 * holds. Building it from the positions is not part of this model; its
 * output is taken as given data.
 *
 * This module enumerates, in the order of the four nested loops of the force
 * computation, the ordered particle pairs (i, j) that the loops visit, and
 * counts how often each unordered pair is visited. The enumeration takes a
 * flag `oncePerPair`: when false it is the loops as written, which pair every
 * particle of `b1` with every particle of `b2` even when `b2 == b1`; when true
 * a box paired with itself only visits (i, j) with i < j, so each unordered
 * pair of its particles is visited once.
 */
module CellList {

  /** What `getNBoxes`, `getNbrsPos` and `getPartsOfBox` return, plus the particle count the boxes were built for. */
  datatype Boxes = Boxes(nParts: nat, nBoxes: nat, nbrsPos: seq<seq<int>>, partsOfBox: seq<seq<int>>)
  {
    /** Every neighbour is a box index and every listed particle a particle index. */
    ghost predicate WellFormed()
    {
      && |nbrsPos| == nBoxes
      && |partsOfBox| == nBoxes
      && (forall b :: 0 <= b < nBoxes ==> forall q :: 0 <= q < |nbrsPos[b]| ==> 0 <= nbrsPos[b][q] < nBoxes)
      && (forall b :: 0 <= b < nBoxes ==> forall r :: 0 <= r < |partsOfBox[b]| ==> 0 <= partsOfBox[b][r] < nParts)
    }
  }

  /** Both members of every pair are particle indices below `n`. */
  ghost predicate ValidPairs(v: seq<(int, int)>, n: nat)
  {
    forall k :: 0 <= k < |v| ==> 0 <= v[k].0 < n && 0 <= v[k].1 < n
  }

  /** Whether the innermost loop visits (i, j); with `halfSelf` (a box against itself, corrected) only when i < j. */
  predicate Visited(halfSelf: bool, i: int, j: int)
  {
    !halfSelf || i < j
  }

  /** Innermost loop: particle `i` against the particles of `ps2`, in order, keeping those `Visited` admits. */
  ghost function Row(i: int, ps2: seq<int>, halfSelf: bool): seq<(int, int)>
  {
    if |ps2| == 0 then []
    else
      var j := ps2[|ps2| - 1];
      Row(i, ps2[..|ps2| - 1], halfSelf) + (if Visited(halfSelf, i, j) then [(i, j)] else [])
  }

  /** Two inner loops: every particle of `ps1` against the particles of `ps2`. */
  ghost function BoxPairs(ps1: seq<int>, ps2: seq<int>, halfSelf: bool): seq<(int, int)>
  {
    if |ps1| == 0 then [] else BoxPairs(ps1[..|ps1| - 1], ps2, halfSelf) + Row(ps1[|ps1| - 1], ps2, halfSelf)
  }

  /** Box `b1` against its first `q` neighbour boxes. */
  ghost function Stencil(boxes: Boxes, b1: nat, q: nat, oncePerPair: bool): seq<(int, int)>
    requires boxes.WellFormed()
    requires b1 < boxes.nBoxes && q <= |boxes.nbrsPos[b1]|
  {
    if q == 0 then []
    else
      var b2 := boxes.nbrsPos[b1][q - 1];
      Stencil(boxes, b1, q - 1, oncePerPair) + BoxPairs(boxes.partsOfBox[b1], boxes.partsOfBox[b2], oncePerPair && b2 == b1)
  }

  /** Outer loop: the pairs visited for the first `nb` boxes. */
  ghost function VisitsUpTo(boxes: Boxes, nb: nat, oncePerPair: bool): seq<(int, int)>
    requires boxes.WellFormed()
    requires nb <= boxes.nBoxes
  {
    if nb == 0 then [] else VisitsUpTo(boxes, nb - 1, oncePerPair) + Stencil(boxes, nb - 1, |boxes.nbrsPos[nb - 1]|, oncePerPair)
  }

  /** Every ordered pair the force loops visit, in visiting order. */
  ghost function Visits(boxes: Boxes, oncePerPair: bool): (v: seq<(int, int)>)
    requires boxes.WellFormed()
    ensures ValidPairs(v, boxes.nParts)
  {
    VisitsValid(boxes, boxes.nBoxes, oncePerPair);
    VisitsUpTo(boxes, boxes.nBoxes, oncePerPair)
  }

  /** The pairs of one row are particle pairs. */
  lemma {:induction false} RowValid(i: int, ps2: seq<int>, halfSelf: bool, n: nat)
    requires 0 <= i < n
    requires forall s :: 0 <= s < |ps2| ==> 0 <= ps2[s] < n
    ensures ValidPairs(Row(i, ps2, halfSelf), n)
  {
    if |ps2| > 0 {
      RowValid(i, ps2[..|ps2| - 1], halfSelf, n);
    }
  }

  /** The pairs of two boxes' particle lists are particle pairs. */
  lemma {:induction false} BoxPairsValid(ps1: seq<int>, ps2: seq<int>, halfSelf: bool, n: nat)
    requires forall r :: 0 <= r < |ps1| ==> 0 <= ps1[r] < n
    requires forall s :: 0 <= s < |ps2| ==> 0 <= ps2[s] < n
    ensures ValidPairs(BoxPairs(ps1, ps2, halfSelf), n)
  {
    if |ps1| > 0 {
      BoxPairsValid(ps1[..|ps1| - 1], ps2, halfSelf, n);
      RowValid(ps1[|ps1| - 1], ps2, halfSelf, n);
    }
  }

  lemma {:induction false} StencilValid(boxes: Boxes, b1: nat, q: nat, oncePerPair: bool)
    requires boxes.WellFormed()
    requires b1 < boxes.nBoxes && q <= |boxes.nbrsPos[b1]|
    ensures ValidPairs(Stencil(boxes, b1, q, oncePerPair), boxes.nParts)
  {
    if q > 0 {
      StencilValid(boxes, b1, q - 1, oncePerPair);
      var b2 := boxes.nbrsPos[b1][q - 1];
      BoxPairsValid(boxes.partsOfBox[b1], boxes.partsOfBox[b2], oncePerPair && b2 == b1, boxes.nParts);
    }
  }

  /** Every visited pair is a pair of particle indices, so the force updates stay in bounds. */
  lemma {:induction false} VisitsValid(boxes: Boxes, nb: nat, oncePerPair: bool)
    requires boxes.WellFormed()
    requires nb <= boxes.nBoxes
    ensures ValidPairs(VisitsUpTo(boxes, nb, oncePerPair), boxes.nParts)
  {
    if nb > 0 {
      VisitsValid(boxes, nb - 1, oncePerPair);
      StencilValid(boxes, nb - 1, |boxes.nbrsPos[nb - 1]|, oncePerPair);
    }
  }

  /** How many visits are of the unordered pair {i, j}, in either order. */
  ghost function PairCount(v: seq<(int, int)>, i: int, j: int): nat
  {
    if |v| == 0 then 0
    else PairCount(v[..|v| - 1], i, j) + (if v[|v| - 1] == (i, j) || v[|v| - 1] == (j, i) then 1 else 0)
  }

  /** Counting over a concatenation adds the counts. */
  lemma {:induction false} PairCountAppend(a: seq<(int, int)>, b: seq<(int, int)>, i: int, j: int)
    ensures PairCount(a + b, i, j) == PairCount(a, i, j) + PairCount(b, i, j)
  {
    if |b| == 0 {
      assert a + b == a;
    } else {
      assert (a + b)[..|a + b| - 1] == a + b[..|b| - 1];
      PairCountAppend(a, b[..|b| - 1], i, j);
    }
  }

  /** How many times `x` occurs in `s`. */
  function Count(s: seq<int>, x: int): nat
  {
    if |s| == 0 then 0 else Count(s[..|s| - 1], x) + (if s[|s| - 1] == x then 1 else 0)
  }

  /** `s[..k + 1]` holds one more copy of `s[k]` than `s[..k]`. */
  lemma CountSnoc(s: seq<int>, k: nat, x: int)
    requires k < |s|
    ensures Count(s[..k + 1], x) == Count(s[..k], x) + (if s[k] == x then 1 else 0)
  {
    assert s[..k + 1][..k] == s[..k];
  }

  /**
   * For i != j, a row of particle a meets {i, j} once for every copy of j in
   * `ps2` when a is i (and i < j, if only i < j is visited), and symmetrically.
   */
  lemma {:induction false} RowCount(a: int, ps2: seq<int>, halfSelf: bool, i: int, j: int)
    requires i != j
    ensures PairCount(Row(a, ps2, halfSelf), i, j)
         == (if a == i && Visited(halfSelf, i, j) then Count(ps2, j) else 0)
          + (if a == j && Visited(halfSelf, j, i) then Count(ps2, i) else 0)
  {
    if |ps2| > 0 {
      var e := ps2[|ps2| - 1];
      var init := ps2[..|ps2| - 1];
      var last := if Visited(halfSelf, a, e) then [(a, e)] else [];
      assert PairCount(Row(a, ps2, halfSelf), i, j) == PairCount(Row(a, init, halfSelf), i, j) + PairCount(last, i, j) by {
        PairCountAppend(Row(a, init, halfSelf), last, i, j);
      }
      assert PairCount(Row(a, init, halfSelf), i, j)
          == (if a == i && Visited(halfSelf, i, j) then Count(init, j) else 0)
           + (if a == j && Visited(halfSelf, j, i) then Count(init, i) else 0) by {
        RowCount(a, init, halfSelf, i, j);
      }
      assert PairCount(last, i, j) == if Visited(halfSelf, a, e) && ((a, e) == (i, j) || (a, e) == (j, i)) then 1 else 0 by {
        if Visited(halfSelf, a, e) {
          assert last[..0] == [];
        }
      }
    }
  }

  /** `a` copies of `b`: the number of visits when `a` copies of one particle meet `b` copies of another. */
  function Times(a: nat, b: nat): nat
  {
    if a == 0 then 0 else Times(a - 1, b) + b
  }

  /** One more copy of the first particle adds one more copy of the second. */
  lemma TimesStep(m: nat, add: bool, n: nat)
    ensures Times(m + (if add then 1 else 0), n) == Times(m, n) + (if add then n else 0)
  {
  }

  /**
   * For i != j, two boxes' lists meet {i, j} once per copy of i in the first
   * and of j in the second, and once per copy of j in the first and of i in
   * the second, each term only in the order `Visited` admits.
   */
  lemma {:induction false} BoxPairsCount(ps1: seq<int>, ps2: seq<int>, halfSelf: bool, i: int, j: int)
    requires i != j
    ensures PairCount(BoxPairs(ps1, ps2, halfSelf), i, j)
         == (if Visited(halfSelf, i, j) then Times(Count(ps1, i), Count(ps2, j)) else 0)
          + (if Visited(halfSelf, j, i) then Times(Count(ps1, j), Count(ps2, i)) else 0)
  {
    if |ps1| > 0 {
      var a := ps1[|ps1| - 1];
      var init := ps1[..|ps1| - 1];
      var vij, vji := Visited(halfSelf, i, j), Visited(halfSelf, j, i);
      var mi, mj := Count(init, i), Count(init, j);
      var ni, nj := Count(ps2, i), Count(ps2, j);
      var earlier := PairCount(BoxPairs(init, ps2, halfSelf), i, j);
      var row := PairCount(Row(a, ps2, halfSelf), i, j);
      assert PairCount(BoxPairs(ps1, ps2, halfSelf), i, j) == earlier + row by {
        PairCountAppend(BoxPairs(init, ps2, halfSelf), Row(a, ps2, halfSelf), i, j);
      }
      assert earlier == (if vij then Times(mi, nj) else 0) + (if vji then Times(mj, ni) else 0) by {
        BoxPairsCount(init, ps2, halfSelf, i, j);
      }
      assert row == (if a == i && vij then nj else 0) + (if a == j && vji then ni else 0) by {
        RowCount(a, ps2, halfSelf, i, j);
      }
      assert Count(ps1, i) == mi + (if a == i then 1 else 0) && Count(ps1, j) == mj + (if a == j then 1 else 0);
      TimesStep(mi, a == i, nj);
      TimesStep(mj, a == j, ni);
    }
  }

  /**
   * `home[i]` is the box of particle i: every particle is listed exactly once,
   * in its own box, and in no other.
   */
  ghost predicate Partition(boxes: Boxes, home: seq<int>)
  {
    && boxes.WellFormed()
    && |home| == boxes.nParts
    && (forall i :: 0 <= i < |home| ==> 0 <= home[i] < boxes.nBoxes)
    && forall b, i :: 0 <= b < boxes.nBoxes && 0 <= i < |home| ==>
         Count(boxes.partsOfBox[b], i) == if home[i] == b then 1 else 0
  }

  /** The visits box `b1` pays to {i, j} through neighbour box `b2`, when i lives in box `hi` and j in box `hj`. */
  function Across(b1: int, b2: int, hi: int, hj: int, oncePerPair: bool, i: int, j: int): nat
  {
    (if Visited(oncePerPair && b2 == b1, i, j) && hi == b1 && hj == b2 then 1 else 0)
    + (if Visited(oncePerPair && b2 == b1, j, i) && hj == b1 && hi == b2 then 1 else 0)
  }

  /** Under a partition, boxes b1 and b2 meet {i, j} once for each order in which b1 holds one and b2 the other. */
  lemma BoxPairsCountAtHomes(boxes: Boxes, home: seq<int>, b1: int, b2: int, oncePerPair: bool, i: int, j: int)
    requires Partition(boxes, home)
    requires 0 <= b1 < boxes.nBoxes && 0 <= b2 < boxes.nBoxes
    requires 0 <= i < |home| && 0 <= j < |home| && i != j
    ensures PairCount(BoxPairs(boxes.partsOfBox[b1], boxes.partsOfBox[b2], oncePerPair && b2 == b1), i, j)
         == Across(b1, b2, home[i], home[j], oncePerPair, i, j)
  {
    var ps1, ps2 := boxes.partsOfBox[b1], boxes.partsOfBox[b2];
    BoxPairsCount(ps1, ps2, oncePerPair && b2 == b1, i, j);
    assert Count(ps1, i) == if home[i] == b1 then 1 else 0;
    assert Count(ps1, j) == if home[j] == b1 then 1 else 0;
    assert Count(ps2, i) == if home[i] == b2 then 1 else 0;
    assert Count(ps2, j) == if home[j] == b2 then 1 else 0;
  }

  /** How often box `b1`, through the neighbour boxes `nbrs`, meets {i, j} when i lives in box `hi` and j in box `hj`. */
  function StencilWeight(b1: int, nbrs: seq<int>, hi: int, hj: int, oncePerPair: bool): nat
  {
    if oncePerPair && hi == hj then (if b1 == hi then Count(nbrs, hi) else 0)
    else (if b1 == hi then Count(nbrs, hj) else 0) + (if b1 == hj then Count(nbrs, hi) else 0)
  }

  /** One more neighbour box adds its `Across` visits. */
  lemma StencilWeightStep(b1: int, nbrs: seq<int>, k: nat, hi: int, hj: int, oncePerPair: bool, i: int, j: int)
    requires i != j && k < |nbrs|
    ensures StencilWeight(b1, nbrs[..k + 1], hi, hj, oncePerPair)
         == StencilWeight(b1, nbrs[..k], hi, hj, oncePerPair) + Across(b1, nbrs[k], hi, hj, oncePerPair, i, j)
  {
    CountSnoc(nbrs, k, hi);
    CountSnoc(nbrs, k, hj);
  }

  /** Box `b1` against any box `b2` meets {i, j} as `Across` says. */
  ghost predicate CountsAcross(boxes: Boxes, b1: int, hi: int, hj: int, oncePerPair: bool, i: int, j: int)
    requires boxes.WellFormed() && 0 <= b1 < boxes.nBoxes
  {
    forall b2 :: 0 <= b2 < boxes.nBoxes ==>
      PairCount(BoxPairs(boxes.partsOfBox[b1], boxes.partsOfBox[b2], oncePerPair && b2 == b1), i, j)
      == Across(b1, b2, hi, hj, oncePerPair, i, j)
  }

  lemma {:induction false} StencilCount(boxes: Boxes, b1: nat, q: nat, hi: int, hj: int, oncePerPair: bool, i: int, j: int)
    requires boxes.WellFormed()
    requires b1 < boxes.nBoxes && q <= |boxes.nbrsPos[b1]|
    requires i != j && CountsAcross(boxes, b1, hi, hj, oncePerPair, i, j)
    ensures PairCount(Stencil(boxes, b1, q, oncePerPair), i, j) == StencilWeight(b1, boxes.nbrsPos[b1][..q], hi, hj, oncePerPair)
  {
    var nbrs := boxes.nbrsPos[b1];
    if q > 0 {
      var b2 := nbrs[q - 1];
      var pairs := BoxPairs(boxes.partsOfBox[b1], boxes.partsOfBox[b2], oncePerPair && b2 == b1);
      var earlier := PairCount(Stencil(boxes, b1, q - 1, oncePerPair), i, j);
      var w0 := StencilWeight(b1, nbrs[..q - 1], hi, hj, oncePerPair);
      var x := Across(b1, b2, hi, hj, oncePerPair, i, j);
      assert PairCount(Stencil(boxes, b1, q, oncePerPair), i, j) == earlier + PairCount(pairs, i, j) by {
        PairCountAppend(Stencil(boxes, b1, q - 1, oncePerPair), pairs, i, j);
      }
      assert earlier == w0 by {
        StencilCount(boxes, b1, q - 1, hi, hj, oncePerPair, i, j);
      }
      assert PairCount(pairs, i, j) == x;
      assert StencilWeight(b1, nbrs[..q], hi, hj, oncePerPair) == w0 + x by {
        StencilWeightStep(b1, nbrs, q - 1, hi, hj, oncePerPair, i, j);
      }
    }
  }

  /** How often the loops over the first `nb` boxes meet {i, j} when i lives in box `hi` and j in box `hj`. */
  ghost function VisitsWeight(boxes: Boxes, nb: nat, hi: int, hj: int, oncePerPair: bool): nat
    requires boxes.WellFormed()
    requires 0 <= hi < boxes.nBoxes && 0 <= hj < boxes.nBoxes
  {
    if oncePerPair && hi == hj then (if hi < nb then Count(boxes.nbrsPos[hi], hi) else 0)
    else (if hi < nb then Count(boxes.nbrsPos[hi], hj) else 0) + (if hj < nb then Count(boxes.nbrsPos[hj], hi) else 0)
  }

  /** One more box `b1` adds its stencil weight. */
  lemma VisitsWeightStep(boxes: Boxes, b1: nat, hi: int, hj: int, oncePerPair: bool)
    requires boxes.WellFormed() && b1 < boxes.nBoxes
    requires 0 <= hi < boxes.nBoxes && 0 <= hj < boxes.nBoxes
    ensures VisitsWeight(boxes, b1 + 1, hi, hj, oncePerPair)
         == VisitsWeight(boxes, b1, hi, hj, oncePerPair) + StencilWeight(b1, boxes.nbrsPos[b1], hi, hj, oncePerPair)
  {
  }

  lemma {:induction false} VisitsUpToCount(boxes: Boxes, home: seq<int>, nb: nat, oncePerPair: bool, i: int, j: int)
    requires Partition(boxes, home)
    requires nb <= boxes.nBoxes
    requires 0 <= i < |home| && 0 <= j < |home| && i != j
    ensures PairCount(VisitsUpTo(boxes, nb, oncePerPair), i, j) == VisitsWeight(boxes, nb, home[i], home[j], oncePerPair)
  {
    if nb > 0 {
      var b1 := nb - 1;
      var nbrs := boxes.nbrsPos[b1];
      var earlier := VisitsUpTo(boxes, b1, oncePerPair);
      var stencil := Stencil(boxes, b1, |nbrs|, oncePerPair);
      assert PairCount(VisitsUpTo(boxes, nb, oncePerPair), i, j) == PairCount(earlier, i, j) + PairCount(stencil, i, j) by {
        PairCountAppend(earlier, stencil, i, j);
      }
      assert PairCount(earlier, i, j) == VisitsWeight(boxes, b1, home[i], home[j], oncePerPair) by {
        VisitsUpToCount(boxes, home, b1, oncePerPair, i, j);
      }
      assert PairCount(stencil, i, j) == StencilWeight(b1, nbrs, home[i], home[j], oncePerPair) by {
        forall b2 | 0 <= b2 < boxes.nBoxes
          ensures PairCount(BoxPairs(boxes.partsOfBox[b1], boxes.partsOfBox[b2], oncePerPair && b2 == b1), i, j)
               == Across(b1, b2, home[i], home[j], oncePerPair, i, j)
        {
          BoxPairsCountAtHomes(boxes, home, b1, b2, oncePerPair, i, j);
        }
        StencilCount(boxes, b1, |nbrs|, home[i], home[j], oncePerPair, i, j);
        assert nbrs[..|nbrs|] == nbrs;
      }
      VisitsWeightStep(boxes, b1, home[i], home[j], oncePerPair);
    }
  }

  /**
   * The visit count of a pair of distinct particles, from their boxes alone.
   * As written, {i, j} is met once per listing of j's box among i's box's
   * neighbours and once per listing of i's box among j's box's neighbours; in
   * particular two particles of the same box are met twice per listing of the
   * box among its own neighbours. With `oncePerPair` a same-box pair is met
   * once per such listing.
   */
  lemma VisitCount(boxes: Boxes, home: seq<int>, oncePerPair: bool, i: int, j: int)
    requires Partition(boxes, home)
    requires 0 <= i < |home| && 0 <= j < |home| && i != j
    ensures PairCount(Visits(boxes, oncePerPair), i, j)
         == if oncePerPair && home[i] == home[j] then Count(boxes.nbrsPos[home[i]], home[i])
            else Count(boxes.nbrsPos[home[i]], home[j]) + Count(boxes.nbrsPos[home[j]], home[i])
  {
    VisitsUpToCount(boxes, home, boxes.nBoxes, oncePerPair, i, j);
  }

  /**
   * The loops as written never visit two particles of one box exactly once:
   * the count is twice the number of times the box lists itself, so 0 or at
   * least 2.
   */
  lemma AsWrittenSameBoxCountIsEven(boxes: Boxes, home: seq<int>, i: int, j: int)
    requires Partition(boxes, home)
    requires 0 <= i < |home| && 0 <= j < |home| && i != j && home[i] == home[j]
    ensures PairCount(Visits(boxes, false), i, j) == 2 * Count(boxes.nbrsPos[home[i]], home[i])
    ensures PairCount(Visits(boxes, false), i, j) != 1
  {
    VisitCount(boxes, home, false, i, j);
  }

  /** Every box lists itself exactly once among its neighbours. */
  ghost predicate ListsItselfOnce(boxes: Boxes)
    requires boxes.WellFormed()
  {
    forall b :: 0 <= b < boxes.nBoxes ==> Count(boxes.nbrsPos[b], b) == 1
  }

  /**
   * A half stencil: two different boxes are paired once in total, one listing
   * the other once and the other not listing the first.
   */
  ghost predicate PairedOnce(boxes: Boxes, b: int, c: int)
    requires boxes.WellFormed()
    requires 0 <= b < boxes.nBoxes && 0 <= c < boxes.nBoxes
  {
    Count(boxes.nbrsPos[b], c) + Count(boxes.nbrsPos[c], b) == 1
  }

  /**
   * With the same-box loop visiting i < j only, a box that lists itself once
   * meets each pair of its own particles exactly once, and two different
   * boxes that are paired once meet each pair across them exactly once.
   */
  lemma CorrectedVisitsOnce(boxes: Boxes, home: seq<int>, i: int, j: int)
    requires Partition(boxes, home) && ListsItselfOnce(boxes)
    requires 0 <= i < |home| && 0 <= j < |home| && i != j
    requires home[i] != home[j] ==> PairedOnce(boxes, home[i], home[j])
    ensures PairCount(Visits(boxes, true), i, j) == 1
  {
    VisitCount(boxes, home, true, i, j);
  }
}
