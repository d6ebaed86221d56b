/** The header logo whose height follows the window width. */
module Logo {

  const MobileHeight: nat := 60
  const TabletHeight: nat := 80
  const DesktopHeight: nat := 100

  /** `handleResize`'s choice: below 640 is mobile, below 1024 tablet, otherwise desktop. */
  function LogoHeight(width: int): (h: nat)
    ensures width < 640 ==> h == MobileHeight
    ensures 640 <= width < 1024 ==> h == TabletHeight
    ensures width >= 1024 ==> h == DesktopHeight
  {
    if width < 640 then MobileHeight
    else if width < 1024 then TabletHeight
    else DesktopHeight
  }

  /** A wider window never gets a smaller logo, and there are only three heights. */
  lemma LogoHeightMonotone(w1: int, w2: int)
    requires w1 <= w2
    ensures LogoHeight(w1) <= LogoHeight(w2)
    ensures LogoHeight(w1) in {MobileHeight, TabletHeight, DesktopHeight}
  {
  }

  class ResponsiveLogo {
    var logoHeight: nat

    /** The initial state, before the first resize handler runs. */
    constructor ()
      ensures logoHeight == DesktopHeight
    {
      logoHeight := DesktopHeight;
    }

    /** `handleResize` with `window.innerWidth` as the parameter. */
    method HandleResize(width: int)
      modifies this
      ensures logoHeight == LogoHeight(width)
    {
      if width < 640 {
        logoHeight := MobileHeight;
      } else if width < 1024 {
        logoHeight := TabletHeight;
      } else {
        logoHeight := DesktopHeight;
      }
    }
  }
}
