/**
 * Centring a shell over its parent (de.sebthom.eclipse.commons.ui.UI.center).
 *
 * Coordinates are mathematical integers: Java `int` overflow of the
 * subtraction and addition is not modelled. The division by 2 truncates
 * toward zero, as Java's does.
 */
module UI {
  import opened Common
  import NullAnalysis

  /** An SWT `Rectangle`. */
  datatype Rect = Rect(x: int, y: int, width: int, height: int)

  /** The bounds a shell is centred in: its parent's, or the display's when it has none. */
  function ReferenceBounds(parentBounds: Option<Rect>, displayBounds: Rect): Rect
  {
    NullAnalysis.DefaultIfNull(parentBounds, displayBounds)
  }

  /**
   * The position `(parent - shell) / 2 + parentOrigin` along one axis: the
   * two margins it leaves differ by at most one, and when the shell fits, it
   * lies inside the parent.
   */
  function CenteredOrigin(parentOrigin: int, parentSize: int, shellSize: int): (o: int)
    ensures shellSize <= parentSize ==> parentOrigin <= o && o + shellSize <= parentOrigin + parentSize
    ensures shellSize <= parentSize ==> 0 <= (parentOrigin + parentSize) - (o + shellSize) - (o - parentOrigin) <= 1
    ensures shellSize > parentSize ==> 0 <= (o - parentOrigin) - ((parentOrigin + parentSize) - (o + shellSize)) <= 1
  {
    JavaHalf(parentSize - shellSize) + parentOrigin
  }

  /**
   * `center(shell)`: the shell's new bounds. Only the location moves; the
   * size stays. Along each axis, the shell is centred in the reference
   * bounds to within one pixel, the extra pixel going to the right (bottom)
   * margin when the shell fits and to the left (top) margin when it does not.
   */
  function Center(shellBounds: Rect, parentBounds: Option<Rect>, displayBounds: Rect): (r: Rect)
    ensures r.width == shellBounds.width && r.height == shellBounds.height
    ensures var p := ReferenceBounds(parentBounds, displayBounds);
      r.x == CenteredOrigin(p.x, p.width, shellBounds.width) && r.y == CenteredOrigin(p.y, p.height, shellBounds.height)
  {
    var p := ReferenceBounds(parentBounds, displayBounds);
    var x := JavaHalf(p.width - shellBounds.width) + p.x;
    var y := JavaHalf(p.height - shellBounds.height) + p.y;
    shellBounds.(x := x, y := y)
  }

  /** A shell that fits its reference bounds ends up entirely inside them. */
  lemma CenteredShellInsideParent(shellBounds: Rect, parentBounds: Option<Rect>, displayBounds: Rect)
    requires var p := ReferenceBounds(parentBounds, displayBounds);
      shellBounds.width <= p.width && shellBounds.height <= p.height
    ensures var p := ReferenceBounds(parentBounds, displayBounds);
      var r := Center(shellBounds, parentBounds, displayBounds);
      p.x <= r.x && r.x + r.width <= p.x + p.width &&
      p.y <= r.y && r.y + r.height <= p.y + p.height
  {
  }

  /** Centring an already centred shell leaves it where it is. */
  lemma CenterIsIdempotent(shellBounds: Rect, parentBounds: Option<Rect>, displayBounds: Rect)
    ensures var r := Center(shellBounds, parentBounds, displayBounds);
      Center(r, parentBounds, displayBounds) == r
  {
  }
}
