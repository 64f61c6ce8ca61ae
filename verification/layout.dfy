/** The integer arithmetic of `VideoPlayer.onLayout`: where the play button
    and the loading spinner are centred, and where the control bar sits. */
module Layout {
  import opened Java

  /** The rectangle passed to `View.layout(l, t, r, b)`. */
  datatype Frame = Frame(left: int, top: int, right: int, bottom: int)

  /** A square child of side `childSize` centred in a `width` x `height`
      parent, with Java's truncating division by two. */
  function CenteredFrame(width: int, height: int, childSize: int): Frame
  {
    Frame(Div(width - childSize, 2), Div(height - childSize, 2),
          Div(width + childSize, 2), Div(height + childSize, 2))
  }

  /** The control bar: full parent width, its own measured height, on the bottom edge. */
  function BottomFrame(width: int, height: int, childHeight: int): Frame
  {
    Frame(0, height - childHeight, width, height)
  }

  /** The pixel at column `x`, row `y` lies inside `f`. */
  predicate Covers(f: Frame, x: int, y: int) {
    f.left <= x < f.right && f.top <= y < f.bottom
  }

  /** A control bar no taller than the parent covers exactly the bottom
      `childHeight` rows of the parent, across its whole width, and leaves
      the band above it free. */
  lemma BottomFrameCovers(width: int, height: int, childHeight: int, x: int, y: int)
    requires 0 <= childHeight <= height
    requires 0 <= x < width && 0 <= y < height
    ensures Covers(BottomFrame(width, height, childHeight), x, y) <==> height - childHeight <= y
  {
  }

  /** Centring along one axis of length `extent`. A child that fits keeps its
      size and the two margins differ by at most one pixel (the extra pixel
      goes after it); a child larger than the parent overhangs both sides
      equally and loses one pixel when the overhang is odd. */
  lemma CenteredSpan(extent: int, size: int)
    requires 0 <= extent && 0 <= size
    ensures var lo, hi := Div(extent - size, 2), Div(extent + size, 2);
      (size <= extent ==> 0 <= lo && hi <= extent && hi - lo == size
                          && lo <= extent - hi <= lo + 1)
      && (extent < size ==> extent - hi == lo && hi - lo == size - (size - extent) % 2)
  {
  }

  /** Both axes of `CenteredFrame`, for the play button and the spinner. */
  lemma CenteredFrameCentres(width: int, height: int, childSize: int)
    requires 0 <= width && 0 <= height && 0 <= childSize
    ensures var f := CenteredFrame(width, height, childSize);
      (childSize <= width ==> f.right - f.left == childSize && 0 <= f.left
                              && f.left <= width - f.right <= f.left + 1)
      && (childSize <= height ==> f.bottom - f.top == childSize && 0 <= f.top
                                  && f.top <= height - f.bottom <= f.top + 1)
      && (width < childSize ==> width - f.right == f.left)
      && (height < childSize ==> height - f.bottom == f.top)
  {
    CenteredSpan(width, childSize);
    CenteredSpan(height, childSize);
  }
}
