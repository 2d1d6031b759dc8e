/** Property galleries: the order and the single featured image that two migrations leave behind. */
module Gallery {
  import opened Wrappers

  const MAX_IMAGES := 20

  /** An image: its other fields, its order if it has one, and whether it is marked as featured. */
  datatype Image = Image(body: string, order: Option<int>, featured: bool)

  /** An image with its place in the gallery. */
  datatype Row = Row(image: Image, index: nat)

  function OrderOf(r: Row): int {
    if r.image.order.Some? then r.image.order.value else r.index
  }

  /** The comparison both migrations sort by: featured first, then order, then place. */
  predicate Before(a: Row, b: Row) {
    if a.image.featured != b.image.featured then a.image.featured
    else if OrderOf(a) != OrderOf(b) then OrderOf(a) < OrderOf(b)
    else a.index < b.index
  }

  function Rows(images: seq<Image>): (r: seq<Row>)
    ensures |r| == |images| && forall i :: 0 <= i < |r| ==> r[i] == Row(images[i], i)
  {
    seq(|images|, i requires 0 <= i < |images| => Row(images[i], i))
  }

  function Images(rows: seq<Row>): (r: seq<Image>)
    ensures |r| == |rows| && forall i :: 0 <= i < |r| ==> r[i] == rows[i].image
  {
    seq(|rows|, i requires 0 <= i < |rows| => rows[i].image)
  }

  // ---------- the sort ----------

  function Insert(sorted: seq<Row>, row: Row): seq<Row> {
    if sorted == [] then [row]
    else
      var last := sorted[|sorted| - 1];
      if Before(row, last) then Insert(sorted[..|sorted| - 1], row) + [last] else sorted + [row]
  }

  function Sort(rows: seq<Row>): seq<Row> {
    if rows == [] then [] else Insert(Sort(rows[..|rows| - 1]), rows[|rows| - 1])
  }

  ghost predicate Increasing(rows: seq<Row>) {
    forall i, j :: 0 <= i < j < |rows| ==> Before(rows[i], rows[j])
  }

  ghost predicate DistinctPlaces(rows: seq<Row>) {
    forall i, j :: 0 <= i < j < |rows| ==> rows[i].index != rows[j].index
  }

  lemma BeforeTotal(a: Row, b: Row)
    ensures !(Before(a, b) && Before(b, a))
    ensures a.index != b.index ==> Before(a, b) || Before(b, a)
  {
  }

  lemma BeforeTrans(a: Row, b: Row, c: Row)
    requires Before(a, b) && Before(b, c)
    ensures Before(a, c)
  {
  }

  lemma {:induction false} InsertKeeps(sorted: seq<Row>, row: Row)
    ensures multiset(Insert(sorted, row)) == multiset(sorted) + multiset{row}
    ensures forall r :: r in Insert(sorted, row) <==> r in sorted || r == row
    ensures |Insert(sorted, row)| == |sorted| + 1
  {
    hide Before;
    if sorted != [] {
      var front, last := sorted[..|sorted| - 1], sorted[|sorted| - 1];
      assert sorted == front + [last];
      InsertKeeps(front, row);
    }
  }

  lemma {:induction false} InsertIncreasing(sorted: seq<Row>, row: Row)
    requires Increasing(sorted) && forall i :: 0 <= i < |sorted| ==> sorted[i].index != row.index
    ensures Increasing(Insert(sorted, row))
  {
    if sorted != [] {
      var front, last := sorted[..|sorted| - 1], sorted[|sorted| - 1];
      BeforeTotal(row, last);
      if Before(row, last) {
        InsertIncreasing(front, row);
        InsertKeeps(front, row);
        var r := Insert(front, row);
        forall i | 0 <= i < |r| ensures Before(r[i], last) {
          assert r[i] in r;
          hide Before;
          if r[i] != row {
            var k :| 0 <= k < |front| && front[k] == r[i];
            assert Before(sorted[k], sorted[|sorted| - 1]);
          }
        }
      } else {
        forall i | 0 <= i < |front| ensures Before(front[i], row) {
          assert Before(sorted[i], sorted[|sorted| - 1]);
          BeforeTrans(front[i], last, row);
        }
      }
      hide Before;
    }
  }

  /** Sorting keeps the rows and puts them in increasing order. */
  lemma {:induction false} SortFacts(rows: seq<Row>)
    requires DistinctPlaces(rows)
    ensures Increasing(Sort(rows)) && multiset(Sort(rows)) == multiset(rows) && |Sort(rows)| == |rows|
    ensures forall r :: r in Sort(rows) <==> r in rows
    decreases |rows|
  {
    hide Before;
    if rows != [] {
      var front, last := rows[..|rows| - 1], rows[|rows| - 1];
      assert rows == front + [last];
      SortFacts(front);
      InsertKeeps(Sort(front), last);
      forall i | 0 <= i < |Sort(front)| ensures Sort(front)[i].index != last.index {
        assert Sort(front)[i] in front;
      }
      InsertIncreasing(Sort(front), last);
    }
  }

  /** Sorting what is in order changes nothing. */
  lemma {:induction false} SortId(rows: seq<Row>)
    requires Increasing(rows)
    ensures Sort(rows) == rows
    decreases |rows|
  {
    if rows != [] {
      var front, last := rows[..|rows| - 1], rows[|rows| - 1];
      SortId(front);
      assert rows == front + [last];
      if front != [] {
        assert Before(rows[|rows| - 2], rows[|rows| - 1]);
        BeforeTotal(front[|front| - 1], last);
      }
    }
  }

  /** The row before all others is the first of the sorted rows. */
  lemma FirstIsLeast(rows: seq<Row>, m: Row)
    requires DistinctPlaces(rows) && m in rows && forall r :: r in rows ==> r == m || Before(m, r)
    ensures Sort(rows) != [] && Sort(rows)[0] == m
  {
    SortFacts(rows);
    var sorted := Sort(rows);
    assert m in sorted;
    var k :| 0 <= k < |sorted| && sorted[k] == m;
    if k > 0 {
      assert Before(sorted[0], sorted[k]);
      assert sorted[0] in rows;
      BeforeTotal(sorted[0], m);
    }
  }

  // ---------- the normalisers ----------

  function First(rows: seq<Row>): seq<Row> {
    if |rows| <= MAX_IMAGES then rows else rows[..MAX_IMAGES]
  }

  predicate AnyFeatured(images: seq<Image>) {
    exists i :: 0 <= i < |images| && images[i].featured
  }

  /** Each image at its place, featured only if no earlier one is. */
  function Marked(selected: seq<Image>): seq<Image> {
    seq(|selected|, i requires 0 <= i < |selected| =>
      selected[i].(order := Some(i), featured := selected[i].featured && !AnyFeatured(selected[..i])))
  }

  function NormalizedImages(images: seq<Image>): seq<Image> {
    Marked(Images(First(Sort(Rows(images)))))
  }

  /** `normalizeImages`, with its flag. */
  method NormalizeImages(images: seq<Image>) returns (result: seq<Image>)
    ensures result == NormalizedImages(images)
  {
    var selected := Images(First(Sort(Rows(images))));
    var featuredUsed := false;
    result := [];
    var order := 0;
    while order < |selected|
      invariant 0 <= order <= |selected|
      invariant featuredUsed == AnyFeatured(selected[..order])
      invariant result == Marked(selected)[..order]
    {
      var image := selected[order];
      var isFeatured := image.featured && !featuredUsed;
      AnyFeaturedGrows(selected, order);
      if isFeatured {
        featuredUsed := true;
      }
      result := result + [image.(order := Some(order), featured := isFeatured)];
      order := order + 1;
    }
    assert result == Marked(selected);
  }

  lemma AnyFeaturedGrows(images: seq<Image>, i: nat)
    requires i < |images|
    ensures AnyFeatured(images[..i + 1]) <==> AnyFeatured(images[..i]) || images[i].featured
  {
    if AnyFeatured(images[..i]) {
      var k :| 0 <= k < i && images[..i][k].featured;
      assert images[..i + 1][k].featured;
    }
    if images[i].featured {
      assert images[..i + 1][i].featured;
    }
  }

  /** `findIndex(image => image.isFeatured)`, the length standing for not found. */
  function FeaturedIndex(images: seq<Image>): (i: nat)
    ensures i <= |images|
    ensures i < |images| ==> images[i].featured
    ensures forall k :: 0 <= k < i ==> !images[k].featured
  {
    if images == [] || images[0].featured then 0 else 1 + FeaturedIndex(images[1..])
  }

  function TrimImages(images: seq<Image>): seq<Image> {
    var prioritized := Images(First(Sort(Rows(images))));
    var featuredIndex := FeaturedIndex(prioritized);
    seq(|prioritized|, order requires 0 <= order < |prioritized| =>
      prioritized[order].(order := Some(order), featured := featuredIndex == order))
  }

  function FeaturedRows(rows: seq<Row>): (r: seq<Row>)
    ensures forall x :: x in r <==> x in rows && x.image.featured
  {
    if rows == [] then []
    else
      var before, last := FeaturedRows(rows[..|rows| - 1]), rows[|rows| - 1];
      assert rows == rows[..|rows| - 1] + [last];
      if last.image.featured then before + [last] else before
  }

  function NormalizeFeaturedImages(images: seq<Image>): seq<Image> {
    var featured := Sort(FeaturedRows(Rows(images)));
    if |featured| <= 1 then images
    else
      seq(|images|, i requires 0 <= i < |images| => images[i].(featured := i == featured[0].index))
  }

  // ---------- what they leave behind ----------

  lemma RowsDistinct(images: seq<Image>)
    ensures DistinctPlaces(Rows(images))
  {
  }

  /** At most 20 images, each an image of the input in its new place, and only the first may be featured. */
  lemma NormalizedFacts(images: seq<Image>)
    ensures var result, sorted := NormalizedImages(images), Sort(Rows(images));
            && |result| == (if |images| <= 20 then |images| else 20) <= |sorted|
            && (forall i :: 0 <= i < |result| ==>
                 sorted[i] in Rows(images) && result[i].order == Some(i) && result[i].body == sorted[i].image.body &&
                 (result[i].featured <==> i == 0 && sorted[0].image.featured))
            && DistinctPlaces(sorted)
  {
    RowsDistinct(images);
    SortFacts(Rows(images));
    var sorted := Sort(Rows(images));
    SortedDistinct(sorted);
    hide Sort;
    var selected := Images(First(sorted));
    forall i | 0 <= i < |selected|
      ensures NormalizedImages(images)[i].featured <==> i == 0 && sorted[0].image.featured {
      OnlyFirst(sorted, i);
      if i > 0 && sorted[0].image.featured {
        assert selected[..i][0].featured;
      }
    }
  }

  lemma SortedDistinct(rows: seq<Row>)
    requires Increasing(rows) && forall r, s :: r in rows && s in rows && r.index == s.index ==> r == s
    ensures DistinctPlaces(rows)
  {
    forall i, j | 0 <= i < j < |rows| ensures rows[i].index != rows[j].index {
      BeforeTotal(rows[i], rows[j]);
      assert Before(rows[i], rows[j]);
    }
  }

  /** In sorted rows an unfeatured row is never before a featured one. */
  lemma OnlyFirst(sorted: seq<Row>, i: nat)
    requires Increasing(sorted) && i < |sorted|
    ensures sorted[i].image.featured ==> sorted[0].image.featured
  {
    if i > 0 {
      assert Before(sorted[0], sorted[i]);
    }
  }

  /** Image `p` of a gallery is shown before image `q`: a featured one before others, then the lower order, a missing
      one being the place, then the earlier place. */
  predicate ComesFirst(images: seq<Image>, p: nat, q: nat) {
    p < |images| && q < |images| &&
    var x := if images[p].order.Some? then images[p].order.value else p;
    var y := if images[q].order.Some? then images[q].order.value else q;
    || (images[p].featured && !images[q].featured)
    || (images[p].featured == images[q].featured && (x < y || (x == y && p < q)))
  }

  predicate InOrder(images: seq<Image>, places: seq<nat>) {
    && (forall i :: 0 <= i < |places| ==> places[i] < |images|)
    && (forall i, j :: 0 <= i < j < |places| ==> ComesFirst(images, places[i], places[j]))
  }

  /** The result holds the images at these places, up to 20, numbered: those that come before all others, in order, and
      at most the first of them featured. */
  ghost predicate Selects(images: seq<Image>, result: seq<Image>, places: seq<nat>) {
    && |places| == |result| == (if |images| <= 20 then |images| else 20)
    && (forall i :: 0 <= i < |places| ==> TakenFrom(images, result, places, i))
    && InOrder(images, places)
    && (forall i, q :: 0 <= i < |places| && 0 <= q < |images| && q !in places ==> ComesFirst(images, places[i], q))
  }

  predicate TakenFrom(images: seq<Image>, result: seq<Image>, places: seq<nat>, i: nat) {
    i < |places| && i < |result| && places[i] < |images| &&
    result[i] == images[places[i]].(order := Some(i), featured := i == 0 && images[places[i]].featured)
  }

  lemma BeforeIs(images: seq<Image>, p: nat, q: nat)
    requires p < |images| && q < |images|
    ensures Before(Row(images[p], p), Row(images[q], q)) <==> ComesFirst(images, p, q)
  {
  }

  function Places(rows: seq<Row>): (r: seq<nat>)
    ensures |r| == |rows| && forall i :: 0 <= i < |r| ==> r[i] == rows[i].index
  {
    seq(|rows|, i requires 0 <= i < |rows| => rows[i].index)
  }

  /** The sorted rows are all images at their places, in the order of the comparison. */
  lemma SortedRows(images: seq<Image>, sorted: seq<Row>)
    requires sorted == Sort(Rows(images))
    ensures forall i :: 0 <= i < |sorted| ==>
              sorted[i].index < |images| && sorted[i].image == images[sorted[i].index]
    ensures InOrder(images, Places(sorted))
    ensures forall q: nat :: q < |images| ==> q in Places(sorted)
  {
    RowsDistinct(images);
    SortFacts(Rows(images));
    var rows, places := Rows(images), Places(sorted);
    hide Sort, Before, ComesFirst;
    forall i | 0 <= i < |sorted| ensures sorted[i].index < |images| && sorted[i] == rows[sorted[i].index] {
      assert sorted[i] in rows;
    }
    forall i, j | 0 <= i < j < |sorted| ensures ComesFirst(images, places[i], places[j]) {
      assert Before(sorted[i], sorted[j]);
      BeforeIs(images, sorted[i].index, sorted[j].index);
    }
    forall q: nat | q < |images| ensures q in places {
      assert rows[q] in sorted;
      var j :| 0 <= j < |sorted| && sorted[j] == rows[q];
      assert places[j] == q;
    }
  }

  lemma TakenRows(images: seq<Image>, sorted: seq<Row>, places: seq<nat>, i: nat)
    requires sorted == Sort(Rows(images)) && i < |NormalizedImages(images)| == |places| <= |sorted|
    requires places[i] == sorted[i].index < |images| && sorted[i].image == images[sorted[i].index]
    ensures TakenFrom(images, NormalizedImages(images), places, i)
  {
    NormalizedFacts(images);
    hide Sort, Rows;
  }

  /** What a normalized gallery is, read off the gallery before. */
  lemma NormalizedIs(images: seq<Image>) returns (places: seq<nat>)
    ensures Selects(images, NormalizedImages(images), places)
  {
    NormalizedFacts(images);
    var sorted, result := Sort(Rows(images)), NormalizedImages(images);
    SortedRows(images, sorted);
    var all, n := Places(sorted), |result|;
    places := all[..n];
    forall i | 0 <= i < n ensures TakenFrom(images, result, places, i) {
      TakenRows(images, sorted, places, i);
    }
    hide Sort, NormalizedImages, ComesFirst, DistinctPlaces, TakenFrom, Places;
    FirstPlaces(images, all, n);
  }

  lemma FirstPlaces(images: seq<Image>, all: seq<nat>, n: nat)
    requires InOrder(images, all) && n <= |all| && forall q: nat :: q < |images| ==> q in all
    ensures InOrder(images, all[..n])
    ensures forall i, q :: 0 <= i < n && 0 <= q < |images| && q !in all[..n] ==> ComesFirst(images, all[i], q)
  {
    hide ComesFirst;
    forall i, q | 0 <= i < n && 0 <= q < |images| && q !in all[..n] ensures ComesFirst(images, all[i], q) {
      assert forall k :: 0 <= k < n ==> all[..n][k] == all[k] && all[k] in all[..n];
      assert q in all;
      var j :| 0 <= j < |all| && all[j] == q;
    }
  }

  ghost predicate IsCover(images: seq<Image>, m: nat) {
    m < |images| && images[m].featured &&
    forall i :: 0 <= i < |images| && images[i].featured && i != m ==> Before(Row(images[m], m), Row(images[i], i))
  }

  /** The cover: if any image is featured, exactly the first of the result is, and it is the featured image of
      least order and place; otherwise none is. */
  lemma CoverFirst(images: seq<Image>) returns (m: nat)
    ensures var result := NormalizedImages(images);
            if AnyFeatured(images) then
              IsCover(images, m) && result != [] && result[0].featured && result[0].body == images[m].body
            else forall i :: 0 <= i < |result| ==> !result[i].featured
  {
    NormalizedFacts(images);
    RowsDistinct(images);
    SortFacts(Rows(images));
    var rows, sorted := Rows(images), Sort(Rows(images));
    hide Sort, NormalizedImages;
    m := 0;
    if AnyFeatured(images) {
      var k :| 0 <= k < |images| && images[k].featured;
      assert rows[k] in sorted;
      var x :| 0 <= x < |sorted| && sorted[x] == rows[k];
      OnlyFirst(sorted, x);
      assert sorted[0] in rows;
      m := sorted[0].index;
      forall i | 0 <= i < |images| && images[i].featured && i != m
        ensures Before(Row(images[m], m), Row(images[i], i)) {
        assert rows[i] in sorted;
        var y :| 0 <= y < |sorted| && sorted[y] == rows[i];
        assert Before(sorted[0], sorted[y]);
      }
    } else if sorted != [] {
      assert sorted[0] in rows;
    }
  }

  /** Normalising again changes nothing. */
  lemma Idempotent(images: seq<Image>)
    ensures NormalizedImages(NormalizedImages(images)) == NormalizedImages(images)
  {
    NormalizedFacts(images);
    var once := NormalizedImages(images);
    hide NormalizedImages;
    assert Increasing(Rows(once));
    SortId(Rows(once));
    MarkedAgain(once);
  }

  lemma MarkedAgain(once: seq<Image>)
    requires |once| <= MAX_IMAGES && Sort(Rows(once)) == Rows(once)
    requires forall i :: 0 <= i < |once| ==> once[i].order == Some(i) && (once[i].featured ==> i == 0)
    ensures NormalizedImages(once) == once
  {
    hide Sort;
    assert Images(Rows(once)) == once;
    assert Marked(once) == once;
  }

  /** The two migrations agree on the images they trim. */
  lemma TrimAgrees(images: seq<Image>)
    ensures TrimImages(images) == NormalizedImages(images)
  {
    hide Sort;
    var selected := Images(First(Sort(Rows(images))));
    var f := FeaturedIndex(selected);
    forall i | 0 <= i < |selected| ensures (selected[i].featured && !AnyFeatured(selected[..i])) == (f == i) {
      if f < i {
        assert selected[..i][f].featured;
      }
    }
  }

  /** Where several images are featured, the other migration keeps featured just the cover of this one. */
  lemma SameCover(images: seq<Image>) returns (m: nat)
    requires AnyFeatured(images)
    ensures IsCover(images, m) && NormalizedImages(images) != [] && NormalizedImages(images)[0].body == images[m].body
    ensures |NormalizeFeaturedImages(images)| == |images|
    ensures forall i :: 0 <= i < |images| ==>
              NormalizeFeaturedImages(images)[i] == images[i].(featured := i == m)
  {
    m := CoverFirst(images);
    var rows := Rows(images);
    var featured := FeaturedRows(rows);
    hide NormalizedImages;
    FeaturedDistinct(rows);
    SortFacts(featured);
    FirstIsLeast(featured, rows[m]);
    if |Sort(featured)| <= 1 {
      forall i | 0 <= i < |images| ensures images[i].featured <==> i == m {
        if images[i].featured {
          assert rows[i] in Sort(featured);
        }
      }
    }
  }

  lemma {:induction false} FeaturedDistinct(rows: seq<Row>)
    requires DistinctPlaces(rows)
    ensures DistinctPlaces(FeaturedRows(rows))
    decreases |rows|
  {
    if rows != [] {
      FeaturedDistinct(rows[..|rows| - 1]);
      var before, last := FeaturedRows(rows[..|rows| - 1]), rows[|rows| - 1];
      forall i | 0 <= i < |before| ensures before[i].index != last.index {
        assert before[i] in rows[..|rows| - 1];
      }
    }
  }
}
