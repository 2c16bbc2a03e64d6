/**
 * `src/components/sections/Gallery.tsx`: the carousel over the six gallery items. Its only state
 * is `currentIndex`, which each handler replaces by a function of the previous index.
 * JavaScript's `%` truncates toward zero; it is written out as `JsRem`.
 */
module Gallery {

  datatype GalleryItem = GalleryItem(id: nat, title: string, category: string)

  const Items: seq<GalleryItem> := [
    GalleryItem(1, "Архитектурные модели", "Архитектура"),
    GalleryItem(2, "Медицинские протезы", "Медицина"),
    GalleryItem(3, "Автомобильные детали", "Автомобили"),
    GalleryItem(4, "Ювелирные изделия", "Ювелирка"),
    GalleryItem(5, "Игрушки и фигурки", "Развлечения"),
    GalleryItem(6, "Инженерные детали", "Инженерия")]

  /** `galleryItems.length`. */
  const Count := 6

  /** JavaScript's remainder: congruent to the dividend modulo the divisor, with the sign of the
      dividend and a magnitude below the divisor's. */
  function JsRem(a: int, b: int): (r: int)
    requires b > 0
    ensures (a - r) % b == 0
    ensures a >= 0 ==> 0 <= r < b
    ensures a < 0 ==> -b < r <= 0
  {
    if a >= 0 then
      assert a - a % b == (a / b) * b;
      MultipleHasNoRemainder(a / b, b);
      a % b
    else
      var q := (-a) / b;
      var m := (-a) % b;
      assert -a == b * q + m;
      assert a + m == (-q) * b;
      MultipleHasNoRemainder(-q, b);
      -m
  }

  /** A multiple of the divisor leaves no remainder. */
  lemma MultipleHasNoRemainder(q: int, b: int)
    requires b > 0
    ensures (q * b) % b == 0
  {
    var x := q * b;
    var k := q - x / b;
    assert x == b * (x / b) + x % b;
    assert x % b == b * k;
  }

  /** `nextSlide`. */
  function NextSlide(prev: int): int {
    JsRem(prev + 1, Count)
  }

  /** `prevSlide`. */
  function PrevSlide(prev: int): int {
    JsRem(prev - 1 + Count, Count)
  }

  /** Both moves keep a valid index valid. */
  lemma SlidesStayInRange(i: int)
    requires 0 <= i < Count
    ensures 0 <= NextSlide(i) < Count && 0 <= PrevSlide(i) < Count
  {
  }

  /** Next from the last item wraps to the first; prev from the first wraps to the last. */
  lemma SlidesWrap()
    ensures NextSlide(Count - 1) == 0
    ensures PrevSlide(0) == Count - 1
  {
  }

  /** Without adding the length first, prev from the first item would be the index -1. */
  lemma PrevNeedsTheAddedLength()
    ensures JsRem(0 - 1, Count) == -1
  {
  }

  /** Next and prev undo each other on every valid index. */
  lemma SlidesAreInverse(i: int)
    requires 0 <= i < Count
    ensures PrevSlide(NextSlide(i)) == i
    ensures NextSlide(PrevSlide(i)) == i
  {
  }

  /** What the user can do: the two arrows and a click on the thumbnail at some position. */
  datatype Action = Next | Prev | Thumbnail(index: nat)

  /** The thumbnails are rendered one per gallery item. */
  predicate IsValidAction(a: Action) {
    a.Thumbnail? ==> a.index < |Items|
  }

  /** The new `currentIndex` after an action. */
  function Step(current: int, a: Action): int {
    match a
    case Next => NextSlide(current)
    case Prev => PrevSlide(current)
    case Thumbnail(k) => k
  }

  /** `currentIndex` after a series of actions from the initial `useState(0)`. */
  function Run(actions: seq<Action>): int
    decreases |actions|
  {
    if actions == [] then 0 else Step(Run(actions[..|actions| - 1]), actions[|actions| - 1])
  }

  /** The index starts at 0 and every series of actions keeps it a valid index into the items,
      so `galleryItems[currentIndex]` always exists; a thumbnail click selects that item. */
  lemma {:induction false} RunStaysInRange(actions: seq<Action>)
    requires forall i :: 0 <= i < |actions| ==> IsValidAction(actions[i])
    ensures 0 <= Run(actions) < |Items|
    ensures actions != [] && actions[|actions| - 1].Thumbnail? ==> Run(actions) == actions[|actions| - 1].index
    decreases |actions|
  {
    if actions != [] {
      RunStaysInRange(actions[..|actions| - 1]);
      SlidesStayInRange(Run(actions[..|actions| - 1]));
    }
  }
}
