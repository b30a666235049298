/** Which terrain combinations the loaded images can draw, the image an edge uses, and
    the search over all combinations of each terrain set. Combination images are known
    by their terrain list only. */
module TerrainCombinations {
  import opened Common
  import C = Config
  import opened Terrain

  // ---------------------------------------------------------------------------------
  // Image availability

  /** Some image draws exactly this combination. */
  predicate HasImage(images: seq<TerrainImage>, combination: seq<TerrainId>) {
    exists m :: 0 <= m < |images| && images[m].combination == combination
  }

  /** Some image joins the terrain at position `i` with the one at another position. */
  predicate PairFrom(images: seq<TerrainImage>, c: seq<TerrainId>, i: nat)
    requires i < |c|
  {
    exists j :: 0 <= j < |c| && j != i && HasImage(images, [c[i], c[j]])
  }

  /** Some image joins the terrains at positions `i` and `j` with one at a third position. */
  predicate TripleFrom2(images: seq<TerrainImage>, c: seq<TerrainId>, i: nat, j: nat)
    requires i < |c| && j < |c|
  {
    exists k :: 0 <= k < |c| && k != i && k != j && HasImage(images, [c[i], c[j], c[k]])
  }

  predicate TripleFrom(images: seq<TerrainImage>, c: seq<TerrainId>, i: nat)
    requires i < |c|
  {
    exists j :: 0 <= j < |c| && j != i && TripleFrom2(images, c, i, j)
  }

  /** Some ordered pair of distinct positions has a two-terrain image. */
  predicate OneToOne(images: seq<TerrainImage>, c: seq<TerrainId>) {
    exists i :: 0 <= i < |c| && PairFrom(images, c, i)
  }

  /** Some ordered triple of distinct positions has a three-terrain image. */
  predicate OneToTwo(images: seq<TerrainImage>, c: seq<TerrainId>) {
    exists i :: 0 <= i < |c| && TripleFrom(images, c, i)
  }

  /** The images suffice for a combination: its first terrain has an image of its
      own, and when the combination is long enough, some pair and some triple of its
      terrains, in some order, have a transition image. */
  predicate HasImagesFor(images: seq<TerrainImage>, c: seq<TerrainId>) {
    && |c| > 0
    && HasImage(images, [c[0]])
    && (|c| < 2 || OneToOne(images, c))
    && (|c| < 3 || OneToTwo(images, c))
  }

  /** `images.iter().any(…)` for one combination. */
  method AnyImage(images: seq<TerrainImage>, combination: seq<TerrainId>) returns (found: bool)
    ensures found == HasImage(images, combination)
  {
    found := false;
    var m := 0;
    while m < |images| && !found
      invariant 0 <= m <= |images|
      invariant found ==> HasImage(images, combination)
      invariant !found ==> forall m' :: 0 <= m' < m ==> images[m'].combination != combination
    {
      found := images[m].combination == combination;
      m := m + 1;
    }
  }

  /** The pairs that start at position `i`, in the `permutations(2)` loop. */
  method AnyPairFrom(images: seq<TerrainImage>, c: seq<TerrainId>, i: nat) returns (found: bool)
    requires i < |c|
    ensures found == PairFrom(images, c, i)
  {
    found := false;
    var j := 0;
    while j < |c|
      invariant 0 <= j <= |c|
      invariant found == exists j' :: 0 <= j' < j && j' != i && HasImage(images, [c[i], c[j']])
    {
      if j != i {
        var f := AnyImage(images, [c[i], c[j]]);
        found := found || f;
      }
      j := j + 1;
    }
  }

  /** The triples that start at positions `i`, `j`, in the `permutations(3)` loop. */
  method AnyTripleFrom2(images: seq<TerrainImage>, c: seq<TerrainId>, i: nat, j: nat) returns (found: bool)
    requires i < |c| && j < |c|
    ensures found == TripleFrom2(images, c, i, j)
  {
    found := false;
    var k := 0;
    while k < |c|
      invariant 0 <= k <= |c|
      invariant found == exists k' :: 0 <= k' < k && k' != i && k' != j && HasImage(images, [c[i], c[j], c[k']])
    {
      if k != i && k != j {
        var f := AnyImage(images, [c[i], c[j], c[k]]);
        found := found || f;
      }
      k := k + 1;
    }
  }

  /** The triples that start at position `i`. */
  method AnyTripleFrom(images: seq<TerrainImage>, c: seq<TerrainId>, i: nat) returns (found: bool)
    requires i < |c|
    ensures found == TripleFrom(images, c, i)
  {
    found := false;
    var j := 0;
    while j < |c|
      invariant 0 <= j <= |c|
      invariant found == exists j' :: 0 <= j' < j && j' != i && TripleFrom2(images, c, i, j')
    {
      if j != i {
        var f := AnyTripleFrom2(images, c, i, j);
        found := found || f;
      }
      j := j + 1;
    }
  }

  /** `has_images_for_combination`: the three flags, each or-ed over its loop. The
      permutations are visited position by position; since the flags only ever
      accumulate `||`, the order of the visit does not matter. */
  method HasImagesForCombination(images: seq<TerrainImage>, combination: seq<TerrainId>) returns (b: bool)
    ensures b == HasImagesFor(images, combination)
  {
    var oneToAny := false;
    var oneToOne := |combination| < 2;
    var oneToTwo := |combination| < 3;
    if |combination| > 0 {
      var found := AnyImage(images, [combination[0]]);
      oneToAny := oneToAny || found;
    }
    if |combination| >= 2 {
      var i := 0;
      while i < |combination|
        invariant 0 <= i <= |combination|
        invariant oneToOne == exists i' :: 0 <= i' < i && PairFrom(images, combination, i')
      {
        var found := AnyPairFrom(images, combination, i);
        oneToOne := oneToOne || found;
        i := i + 1;
      }
    }
    if |combination| >= 3 {
      var i := 0;
      while i < |combination|
        invariant 0 <= i <= |combination|
        invariant oneToTwo == exists i' :: 0 <= i' < i && TripleFrom(images, combination, i')
      {
        var found := AnyTripleFrom(images, combination, i);
        oneToTwo := oneToTwo || found;
        i := i + 1;
      }
    }
    b := oneToAny && oneToOne && oneToTwo;
  }

  /** A single terrain needs only its own image. */
  lemma HasImagesForSingle(images: seq<TerrainImage>, a: TerrainId)
    ensures HasImagesFor(images, [a]) <==> HasImage(images, [a])
  {
  }

  /** Two terrains need the first one's own image and a transition image between
      them, in either order. */
  lemma HasImagesForPair(images: seq<TerrainImage>, a: TerrainId, b: TerrainId)
    ensures HasImagesFor(images, [a, b]) <==> HasImage(images, [a]) && (HasImage(images, [a, b]) || HasImage(images, [b, a]))
  {
    var c := [a, b];
    if HasImage(images, [a, b]) {
      assert [c[0], c[1]] == [a, b];
      assert PairFrom(images, c, 0);
    }
    if HasImage(images, [b, a]) {
      assert [c[1], c[0]] == [b, a];
      assert PairFrom(images, c, 1);
    }
    if OneToOne(images, c) {
      var i :| 0 <= i < |c| && PairFrom(images, c, i);
      var j :| 0 <= j < |c| && j != i && HasImage(images, [c[i], c[j]]);
      if i == 0 { assert [c[i], c[j]] == [a, b]; } else { assert [c[i], c[j]] == [b, a]; }
    }
  }

  /** More images never make a combination unavailable. */
  lemma {:induction false} MoreImagesKeepCombination(images: seq<TerrainImage>, more: seq<TerrainImage>, c: seq<TerrainId>)
    requires HasImagesFor(images, c)
    ensures HasImagesFor(images + more, c)
  {
    forall d | HasImage(images, d) ensures HasImage(images + more, d) {
      var m :| 0 <= m < |images| && images[m].combination == d;
      assert (images + more)[m] == images[m];
    }
    if |c| >= 2 {
      var i :| 0 <= i < |c| && PairFrom(images, c, i);
      var j :| 0 <= j < |c| && j != i && HasImage(images, [c[i], c[j]]);
      assert HasImage(images + more, [c[i], c[j]]);
      assert PairFrom(images + more, c, i);
    }
    if |c| >= 3 {
      var i :| 0 <= i < |c| && TripleFrom(images, c, i);
      var j :| 0 <= j < |c| && j != i && TripleFrom2(images, c, i, j);
      var k :| 0 <= k < |c| && k != i && k != j && HasImage(images, [c[i], c[j], c[k]]);
      assert HasImage(images + more, [c[i], c[j], c[k]]);
      assert TripleFrom2(images + more, c, i, j);
      assert TripleFrom(images + more, c, i);
    }
  }

  // ---------------------------------------------------------------------------------
  // The image an edge uses

  /** The combinations the images draw, in order. */
  function Drawn(images: seq<TerrainImage>): (r: seq<seq<TerrainId>>)
    ensures |r| == |images| && forall m :: 0 <= m < |r| ==> r[m] == images[m].combination
  {
    seq(|images|, m requires 0 <= m < |images| => images[m].combination)
  }

  /** The first image drawing the combination, `None` exactly when there is none. */
  function FindImage(images: seq<TerrainImage>, combination: seq<TerrainId>): (r: Option<nat>)
    ensures r.Some? ==> r.value < |images| && images[r.value].combination == combination
    ensures r.Some? ==> forall m :: 0 <= m < r.value ==> images[m].combination != combination
    ensures r.None? <==> !HasImage(images, combination)
  {
    Position(Drawn(images), combination)
  }

  /** `Option::map(|image| (image, swapped))`. */
  function Tagged(found: Option<nat>, swapped: bool): (r: Option<(nat, bool)>)
    ensures r.Some? <==> found.Some?
    ensures r.Some? ==> r.value == (found.value, swapped)
  {
    match found
    case None => None
    case Some(m) => Some((m, swapped))
  }

  /** `slice::swap`. */
  method Swap(a: array<TerrainId>, i: nat, j: nat)
    requires i < a.Length && j < a.Length
    modifies a
    ensures a[..] == old(a[..])[i := old(a[j])][j := old(a[i])]
  {
    var t := a[i];
    a[i] := a[j];
    a[j] := t;
  }

  /** `find_image_for_combination`, with the image given by its index. When no image
      draws a three-terrain combination, the source swaps its last element with
      itself and searches again; the swap changes nothing, so the second search fails
      as the first did, the slice comes back as it was, and the result is never
      marked as swapped. */
  method FindImageForCombination(images: seq<TerrainImage>, combination: array<TerrainId>) returns (r: Option<(nat, bool)>)
    modifies combination
    ensures combination[..] == old(combination[..])
    ensures r.Some? <==> HasImage(images, combination[..])
    ensures r.Some? ==> r.value == (FindImage(images, combination[..]).value, false)
  {
    var found := FindImage(images, combination[..]);
    if found.None? && combination.Length == 3 {
      Swap(combination, 2, 2);
      var again := FindImage(images, combination[..]);
      r := Tagged(again, true);
    } else {
      r := Tagged(found, false);
    }
  }

  // ---------------------------------------------------------------------------------
  // All combinations of each terrain set

  /** Strictly increasing indices. */
  predicate Increasing(idx: seq<nat>) {
    forall a, b :: 0 <= a < b < |idx| ==> idx[a] < idx[b]
  }

  /** Every index lies in `lo .. n`. */
  predicate Within(idx: seq<nat>, lo: nat, n: nat) {
    forall m :: 0 <= m < |idx| ==> lo <= idx[m] < n
  }

  function PrependAll(x: nat, cs: seq<seq<nat>>): (r: seq<seq<nat>>)
    ensures |r| == |cs| && forall m :: 0 <= m < |cs| ==> r[m] == [x] + cs[m]
  {
    seq(|cs|, m requires 0 <= m < |cs| => [x] + cs[m])
  }

  lemma PrependIncreasing(x: nat, d: seq<nat>, n: nat)
    requires Increasing(d) && Within(d, x + 1, n) && x < n
    ensures Increasing([x] + d) && Within([x] + d, x, n)
  {
    var c := [x] + d;
    forall a, b | 0 <= a < b < |c| ensures c[a] < c[b] {
      assert c[b] == d[b - 1];
      if a > 0 { assert c[a] == d[a - 1]; }
    }
  }

  /** itertools' `combinations(k)` over the indices `lo .. n`: the strictly increasing
      index lists of length `k`, in lexicographic order. */
  function Combinations(lo: nat, n: nat, k: nat): seq<seq<nat>>
    decreases n - lo
  {
    if k == 0 then [[]]
    else if lo >= n then []
    else PrependAll(lo, Combinations(lo + 1, n, k - 1)) + Combinations(lo + 1, n, k)
  }

  /** Every produced index list has length `k` and is strictly increasing in `lo .. n`. */
  lemma {:induction false} CombinationsSound(lo: nat, n: nat, k: nat, c: seq<nat>)
    requires c in Combinations(lo, n, k)
    ensures |c| == k && Increasing(c) && Within(c, lo, n)
    decreases n - lo
  {
    if k > 0 {
      var rest := Combinations(lo + 1, n, k - 1);
      var first := PrependAll(lo, rest);
      if c in first {
        var m :| 0 <= m < |first| && first[m] == c;
        assert rest[m] in rest;
        CombinationsSound(lo + 1, n, k - 1, rest[m]);
        PrependIncreasing(lo, rest[m], n);
      } else {
        CombinationsSound(lo + 1, n, k, c);
        assert forall m :: 0 <= m < |c| ==> lo <= c[m];
      }
    }
  }

  /** Every strictly increasing index list of length `k` in `lo .. n` is produced. */
  lemma {:induction false} CombinationsComplete(lo: nat, n: nat, k: nat, c: seq<nat>)
    requires |c| == k && Increasing(c) && Within(c, lo, n)
    ensures c in Combinations(lo, n, k)
    decreases n - lo
  {
    if k == 0 {
      assert c == [];
    } else {
      assert lo <= c[0] < n;
      var rest := Combinations(lo + 1, n, k - 1);
      if c[0] == lo {
        assert Within(c[1..], lo + 1, n) by {
          forall m | 0 <= m < |c[1..]| ensures lo + 1 <= c[1..][m] < n {
            assert c[1..][m] == c[m + 1];
            assert c[0] < c[m + 1];
          }
        }
        CombinationsComplete(lo + 1, n, k - 1, c[1..]);
        var m :| 0 <= m < |rest| && rest[m] == c[1..];
        assert PrependAll(lo, rest)[m] == [lo] + c[1..] == c;
      } else {
        assert Within(c, lo + 1, n) by {
          forall m | 0 <= m < |c| ensures lo + 1 <= c[m] < n {
            if m > 0 { assert c[0] < c[m]; }
          }
        }
        CombinationsComplete(lo + 1, n, k, c);
      }
    }
  }

  /** The terrains of set `s` at the given indices. */
  function Ids(s: nat, idx: seq<nat>): (r: seq<TerrainId>)
    ensures |r| == |idx| && forall m :: 0 <= m < |idx| ==> r[m] == TerrainId(s, idx[m])
  {
    seq(|idx|, m requires 0 <= m < |idx| => TerrainId(s, idx[m]))
  }

  /** The terrain indices of a combination. */
  function Indices(c: seq<TerrainId>): (r: seq<nat>)
    ensures |r| == |c| && forall m :: 0 <= m < |c| ==> r[m] == c[m].terrain
  {
    seq(|c|, m requires 0 <= m < |c| => c[m].terrain)
  }

  /** The combinations of set `s` at the given index lists that have images, in order. */
  function Accepted(images: seq<TerrainImage>, s: nat, combos: seq<seq<nat>>): seq<seq<TerrainId>> {
    if combos == [] then []
    else
      var ids := Ids(s, combos[|combos| - 1]);
      Accepted(images, s, combos[..|combos| - 1]) + (if HasImagesFor(images, ids) then [ids] else [])
  }

  /** Each accepted combination has images and comes from set `s` at one of the index lists. */
  lemma {:induction false} AcceptedSound(images: seq<TerrainImage>, s: nat, combos: seq<seq<nat>>, c: seq<TerrainId>)
    requires c in Accepted(images, s, combos)
    ensures HasImagesFor(images, c) && Indices(c) in combos
    ensures forall m :: 0 <= m < |c| ==> c[m].terrainSet == s
  {
    var init, last := combos[..|combos| - 1], combos[|combos| - 1];
    if c in Accepted(images, s, init) {
      AcceptedSound(images, s, init, c);
      var m :| 0 <= m < |init| && init[m] == Indices(c);
      assert combos[m] == Indices(c);
    } else {
      assert c == Ids(s, last);
      assert Indices(c) == last;
    }
  }

  /** The accepted combinations of set `s` (of `n` terrains) for lengths `1 .. len - 1`. */
  function Lengths(images: seq<TerrainImage>, s: nat, n: nat, len: nat): seq<seq<TerrainId>> {
    if len <= 1 then []
    else Lengths(images, s, n, len - 1) + Accepted(images, s, Combinations(0, n, len - 1))
  }

  /** Each collected combination of set `s` has images, a length in `1 .. len - 1`, and
      strictly increasing indices below `n`. */
  lemma {:induction false} LengthsSound(images: seq<TerrainImage>, s: nat, n: nat, len: nat, c: seq<TerrainId>)
    requires c in Lengths(images, s, n, len)
    ensures HasImagesFor(images, c) && 1 <= |c| < len
    ensures forall m :: 0 <= m < |c| ==> c[m].terrainSet == s
    ensures Increasing(Indices(c)) && Within(Indices(c), 0, n)
  {
    if c in Lengths(images, s, n, len - 1) {
      LengthsSound(images, s, n, len - 1, c);
    } else {
      var combos := Combinations(0, n, len - 1);
      AcceptedSound(images, s, combos, c);
      CombinationsSound(0, n, len - 1, Indices(c));
    }
  }

  /** The combinations `find_combinations` collects from the given sets, in order:
      set by set, length 1 to 7, and each length in itertools' order. */
  function AllCombinations(sets: seq<C.TerrainSetConfig>, images: seq<TerrainImage>): (r: seq<seq<TerrainId>>)
  {
    if sets == [] then []
    else
      var s := |sets| - 1;
      AllCombinations(sets[..s], images) + Lengths(images, s, |sets[s].terrains|, 8)
  }

  /** All terrains of the combination come from one configured set, in strictly
      increasing index order. */
  predicate FromOneSet(sets: seq<C.TerrainSetConfig>, c: seq<TerrainId>) {
    && |c| > 0
    && c[0].terrainSet < |sets|
    && (forall m :: 0 <= m < |c| ==> c[m].terrainSet == c[0].terrainSet)
    && (forall m :: 0 <= m < |c| ==> c[m].terrain < |sets[c[0].terrainSet].terrains|)
    && (forall a, b :: 0 <= a < b < |c| ==> c[a].terrain < c[b].terrain)
  }

  /** Everything collected is a combination of one set's terrains, in increasing
      index order, of length 1 to 7, with images. */
  lemma {:induction false} AllCombinationsSound(sets: seq<C.TerrainSetConfig>, images: seq<TerrainImage>, c: seq<TerrainId>)
    requires c in AllCombinations(sets, images)
    ensures FromOneSet(sets, c) && 1 <= |c| <= 7 && HasImagesFor(images, c)
  {
    var s := |sets| - 1;
    var prefix := AllCombinations(sets[..s], images);
    if c in prefix {
      AllCombinationsSound(sets[..s], images, c);
      assert sets[..s][c[0].terrainSet] == sets[c[0].terrainSet];
    } else {
      LengthsSound(images, s, |sets[s].terrains|, 8, c);
      var idx := Indices(c);
      forall m | 0 <= m < |c| ensures c[m].terrain < |sets[s].terrains| {
        assert idx[m] == c[m].terrain;
      }
      forall a, b | 0 <= a < b < |c| ensures c[a].terrain < c[b].terrain {
        assert idx[a] == c[a].terrain && idx[b] == c[b].terrain;
      }
    }
  }

  lemma {:induction false} AcceptedComplete(images: seq<TerrainImage>, s: nat, combos: seq<seq<nat>>, idx: seq<nat>)
    requires idx in combos && HasImagesFor(images, Ids(s, idx))
    ensures Ids(s, idx) in Accepted(images, s, combos)
  {
    var last := combos[|combos| - 1];
    if idx != last {
      var m :| 0 <= m < |combos| && combos[m] == idx;
      assert combos[..|combos| - 1][m] == idx;
      AcceptedComplete(images, s, combos[..|combos| - 1], idx);
    }
  }

  lemma {:induction false} LengthsComplete(images: seq<TerrainImage>, s: nat, n: nat, len: nat, idx: seq<nat>)
    requires 1 <= |idx| < len && Increasing(idx) && Within(idx, 0, n) && HasImagesFor(images, Ids(s, idx))
    ensures Ids(s, idx) in Lengths(images, s, n, len)
  {
    var combos := Combinations(0, n, len - 1);
    assert Lengths(images, s, n, len) == Lengths(images, s, n, len - 1) + Accepted(images, s, combos);
    if |idx| == len - 1 {
      CombinationsComplete(0, n, len - 1, idx);
      AcceptedComplete(images, s, combos, idx);
    } else {
      LengthsComplete(images, s, n, len - 1, idx);
    }
  }

  /** Every combination of one set's terrains, in increasing index order, of length 1
      to 7 and with images, is collected. */
  lemma {:induction false} AllCombinationsComplete(sets: seq<C.TerrainSetConfig>, images: seq<TerrainImage>, c: seq<TerrainId>)
    requires FromOneSet(sets, c) && 1 <= |c| <= 7 && HasImagesFor(images, c)
    ensures c in AllCombinations(sets, images)
  {
    var s := |sets| - 1;
    var t := c[0].terrainSet;
    if t < s {
      assert sets[..s][t] == sets[t];
      assert FromOneSet(sets[..s], c);
      AllCombinationsComplete(sets[..s], images, c);
      AllCombinationsStep(sets, images, s);
      assert sets[..s + 1] == sets;
    } else {
      var idx := Indices(c);
      var n := |sets[s].terrains|;
      assert c == Ids(s, idx);
      assert Increasing(idx);
      assert Within(idx, 0, n);
      LengthsComplete(images, s, n, 8, idx);
      AllCombinationsStep(sets, images, s);
      assert sets[..s + 1] == sets;
    }
  }

  /** `find_combinations` collects exactly the combinations of one set's terrains, in
      increasing index order, of length 1 to 7, that the images suffice for. */
  lemma AllCombinationsExactly(sets: seq<C.TerrainSetConfig>, images: seq<TerrainImage>, c: seq<TerrainId>)
    ensures c in AllCombinations(sets, images) <==> FromOneSet(sets, c) && 1 <= |c| <= 7 && HasImagesFor(images, c)
  {
    if c in AllCombinations(sets, images) {
      AllCombinationsSound(sets, images, c);
    }
    if FromOneSet(sets, c) && 1 <= |c| <= 7 && HasImagesFor(images, c) {
      AllCombinationsComplete(sets, images, c);
    }
  }

  /** The step of the loop over index lists. */
  lemma AcceptedStep(images: seq<TerrainImage>, s: nat, combos: seq<seq<nat>>, q: nat)
    requires q < |combos|
    ensures Accepted(images, s, combos[..q + 1]) ==
      Accepted(images, s, combos[..q]) + (if HasImagesFor(images, Ids(s, combos[q])) then [Ids(s, combos[q])] else [])
  {
    assert combos[..q + 1][..q] == combos[..q];
  }

  lemma AllCombinationsStep(sets: seq<C.TerrainSetConfig>, images: seq<TerrainImage>, s: nat)
    requires s < |sets|
    ensures AllCombinations(sets[..s + 1], images) ==
      AllCombinations(sets[..s], images) + Lengths(images, s, |sets[s].terrains|, 8)
  {
    assert sets[..s + 1][..s] == sets[..s];
  }

  lemma Assoc(a: seq<seq<TerrainId>>, b: seq<seq<TerrainId>>, c: seq<seq<TerrainId>>)
    ensures a + b + c == a + (b + c)
  {
  }

  /** The innermost loop of `find_combinations`: push each combination of set `s` at
      the given index lists that the images suffice for. */
  method PushAccepted(images: seq<TerrainImage>, s: nat, combinations: seq<seq<nat>>, possible: seq<seq<TerrainId>>)
    returns (out: seq<seq<TerrainId>>)
    ensures out == possible + Accepted(images, s, combinations)
  {
    out := possible;
    var q := 0;
    while q < |combinations|
      invariant 0 <= q <= |combinations|
      invariant out == possible + Accepted(images, s, combinations[..q])
    {
      var ids := Ids(s, combinations[q]);
      var ok := HasImagesForCombination(images, ids);
      AcceptedStep(images, s, combinations, q);
      Assoc(possible, Accepted(images, s, combinations[..q]), if ok then [ids] else []);
      if ok {
        out := out + [ids];
      }
      q := q + 1;
    }
    assert combinations[..q] == combinations;
  }

  /** The loop over lengths 1 to 7 for set `s`, of `n` terrains. */
  method PushSet(images: seq<TerrainImage>, s: nat, n: nat, possible: seq<seq<TerrainId>>)
    returns (out: seq<seq<TerrainId>>)
    ensures out == possible + Lengths(images, s, n, 8)
  {
    out := possible;
    var length := 1;
    while length < 8
      invariant 1 <= length <= 8
      invariant out == possible + Lengths(images, s, n, length)
    {
      var combinations := Combinations(0, n, length);
      Assoc(possible, Lengths(images, s, n, length), Accepted(images, s, combinations));
      out := PushAccepted(images, s, combinations, out);
      length := length + 1;
    }
  }

  /** `find_combinations`: for each set, each length from 1 to 7 and each combination
      of that length of the set's terrains, keep those the images suffice for. */
  method FindCombinations(sets: seq<C.TerrainSetConfig>, images: seq<TerrainImage>) returns (possible: seq<seq<TerrainId>>)
    ensures possible == AllCombinations(sets, images)
  {
    possible := [];
    var s := 0;
    while s < |sets|
      invariant 0 <= s <= |sets|
      invariant possible == AllCombinations(sets[..s], images)
    {
      AllCombinationsStep(sets, images, s);
      possible := PushSet(images, s, |sets[s].terrains|, possible);
      s := s + 1;
    }
    assert sets[..s] == sets;
  }
}
