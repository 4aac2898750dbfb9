/** The viewport size classes of `useBreakpoint`: the classification object only. */
module Breakpoint {

  const TabletMinWidth: int := 768
  const DesktopMinWidth: int := 1024

  /** `BreakpointState`: the window's inner size and its three size flags. */
  datatype BreakpointState = BreakpointState(
    width: int,
    height: int,
    isMobile: bool,
    isTablet: bool,
    isDesktop: bool)

  /** The object `useBreakpoint` builds from `innerWidth` and `innerHeight`. */
  function Classify(width: int, height: int): (b: BreakpointState)
    ensures b.width == width && b.height == height
  {
    BreakpointState(
      width,
      height,
      width < TabletMinWidth,
      width >= TabletMinWidth && width < DesktopMinWidth,
      width >= DesktopMinWidth)
  }

  /** A state whose flags are the ones its width gives. */
  predicate Classified(b: BreakpointState) {
    b == Classify(b.width, b.height)
  }

  /** The size class as a number: 0 mobile, 1 tablet, 2 desktop. */
  function SizeClass(b: BreakpointState): nat {
    if b.isMobile then 0 else if b.isTablet then 1 else 2
  }

  /** Each flag holds on exactly its own band of widths. */
  lemma ClassifyBands(width: int, height: int)
    ensures Classify(width, height).isMobile <==> width < 768
    ensures Classify(width, height).isTablet <==> 768 <= width < 1024
    ensures Classify(width, height).isDesktop <==> 1024 <= width
  {
  }

  /** Exactly one of the three flags is set in every state the hook builds, whatever the width. */
  lemma ExactlyOneClass(b: BreakpointState)
    requires Classified(b)
    ensures (b.isMobile && !b.isTablet && !b.isDesktop)
      || (!b.isMobile && b.isTablet && !b.isDesktop)
      || (!b.isMobile && !b.isTablet && b.isDesktop)
  {
  }

  /** A wider window never falls into a smaller size class. */
  lemma ClassMonotone(w1: int, w2: int, h1: int, h2: int)
    requires w1 <= w2
    ensures SizeClass(Classify(w1, h1)) <= SizeClass(Classify(w2, h2))
  {
  }
}
