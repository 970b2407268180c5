/** The image carousel of a recipe card and of the recipe detail page: a
    current index into the recipe's images that the arrow buttons move
    forward and back with wrap-around. Both components carry the same
    code, so one model serves both. */
module Carousel {

  /** The forward arrow: the last index goes to 0, any other moves up. */
  function NextIndex(i: int, count: int): (r: int)
    ensures 0 <= i < count ==> 0 <= r < count && r == (i + 1) % count
  {
    if i == count - 1 then 0 else i + 1
  }

  /** The backward arrow: 0 goes to the last index, any other moves down. */
  function PrevIndex(i: int, count: int): (r: int)
    ensures 0 <= i < count ==> 0 <= r < count && r == (i - 1) % count
  {
    if i == 0 then count - 1 else i - 1
  }

  /** Forward after backward and backward after forward restore the
      index. */
  lemma NextPrevInverse(i: int, count: int)
    requires 0 <= i < count
    ensures NextIndex(PrevIndex(i, count), count) == i
    ensures PrevIndex(NextIndex(i, count), count) == i
  {
  }

  /** `k` presses of the forward arrow. */
  function Forward(i: int, count: int, k: nat): int {
    if k == 0 then i else NextIndex(Forward(i, count, k - 1), count)
  }

  lemma {:induction false} ForwardIsModular(i: int, count: int, k: nat)
    requires 0 <= i < count
    ensures Forward(i, count, k) == (i + k) % count
  {
    if k == 0 {
      ModUnique(i, count, 0, i);
    } else {
      ForwardIsModular(i, count, k - 1);
      NextOfRemainder(i + k - 1, count);
    }
  }

  /** One forward press from a remainder gives the next remainder. */
  lemma NextOfRemainder(n: int, count: int)
    requires count > 0
    ensures NextIndex(n % count, count) == (n + 1) % count
  {
    var q, j := n / count, n % count;
    assert n == q * count + j;
    if j == count - 1 {
      assert n + 1 == (q + 1) * count + 0;
      ModUnique(n + 1, count, q + 1, 0);
    } else {
      ModUnique(n + 1, count, q, j + 1);
    }
  }

  /** The remainder is the unique `r` in range with `n == q * count + r`. */
  lemma ModUnique(n: int, count: int, q: int, r: int)
    requires count > 0 && 0 <= r < count && n == q * count + r
    ensures n % count == r
  {
    var q0, r0 := n / count, n % count;
    assert n == q0 * count + r0;
    if q0 > q {
      assert (q0 - q) * count >= count by {
        MulAtLeast(q0 - q, count);
      }
      assert false;
    } else if q0 < q {
      assert (q - q0) * count >= count by {
        MulAtLeast(q - q0, count);
      }
      assert false;
    }
  }

  lemma MulAtLeast(a: int, b: int)
    requires a >= 1 && b > 0
    ensures a * b >= b
  {
  }

  /** As many forward presses as there are images come back to the
      starting image. */
  lemma FullTurn(i: int, count: int)
    requires 0 <= i < count
    ensures Forward(i, count, count as nat) == i
  {
    ForwardIsModular(i, count, count as nat);
    ModUnique(i + count, count, 1, i);
  }

  /** A sequence of presses: `true` is forward, `false` is backward. */
  function Walk(i: int, count: int, presses: seq<bool>): int {
    if presses == [] then i
    else
      var j := Walk(i, count, presses[..|presses| - 1]);
      if presses[|presses| - 1] then NextIndex(j, count) else PrevIndex(j, count)
  }

  /** From any index in range, every sequence of presses stays in range. */
  lemma {:induction false} WalkInRange(i: int, count: int, presses: seq<bool>)
    requires 0 <= i < count
    ensures 0 <= Walk(i, count, presses) < count
  {
    if presses != [] {
      WalkInRange(i, count, presses[..|presses| - 1]);
    }
  }

  /** The carousel state of one rendered component. */
  class ImageCarousel {
    const images: seq<string>
    var index: int

    ghost predicate Valid()
      reads this
    {
      0 <= index < |images|
    }

    /** The component starts on the first image; rendering reads the
        current image, so there is at least one. */
    constructor (images: seq<string>)
      requires |images| >= 1
      ensures this.images == images && index == 0
      ensures Valid()
    {
      this.images := images;
      index := 0;
    }

    method HandleNext()
      requires Valid()
      modifies this
      ensures index == NextIndex(old(index), |images|)
      ensures Valid()
    {
      index := if index == |images| - 1 then 0 else index + 1;
    }

    method HandlePrev()
      requires Valid()
      modifies this
      ensures index == PrevIndex(old(index), |images|)
      ensures Valid()
    {
      index := if index == 0 then |images| - 1 else index - 1;
    }

    /** The arrows are rendered only when there is more than one image. */
    predicate ArrowsShown() {
      |images| > 1
    }

    function CurrentImage(): (r: string)
      requires Valid()
      reads this
      ensures r in images
    {
      images[index]
    }

    /** The dot row under the image: one dot per image, the current one
        lit. */
    function Dots(): (r: seq<bool>)
      reads this
      ensures |r| == |images|
    {
      var current := index;
      seq(|images|, k => k == current)
    }
  }

  /** With a valid index exactly one dot is lit, the one of the current
      image. */
  lemma OneDotLit(c: ImageCarousel)
    requires c.Valid()
    ensures c.Dots()[c.index]
    ensures forall k :: 0 <= k < |c.images| && k != c.index ==> !c.Dots()[k]
  {
    assert c.Dots()[c.index] == (c.index == c.index);
  }

  /** The arrows are shown exactly when they would move the image: when
      hidden, pressing either would keep the index, and when shown, each of
      them changes it. */
  lemma ArrowsShownIffTheyMove(c: ImageCarousel)
    requires c.Valid()
    ensures !c.ArrowsShown() ==>
      NextIndex(c.index, |c.images|) == c.index && PrevIndex(c.index, |c.images|) == c.index
    ensures c.ArrowsShown() ==>
      NextIndex(c.index, |c.images|) != c.index && PrevIndex(c.index, |c.images|) != c.index
  {
  }
}
