/** The application state of src/core/main.c that the input engine reads and writes:
    the control mode, the overlay's visibility and its slide-in animation. Windows,
    painting, the tray icon and the message loop are not modelled. */
module App {
  import opened Common

  /** ControlMode: MODE_GAMEPAD = 0 (no desktop interaction), MODE_DESKTOP = 1. */
  datatype Mode = Gamepad | Desktop

  /** The overlay panel is a fixed 400 pixels wide and slides in from the right edge. */
  const OverlayWidth: int := 400

  /** The mode App_ToggleMode switches to. */
  function ToggledMode(m: Mode): (r: Mode)
    ensures r != m
  {
    if m == Desktop then Gamepad else Desktop
  }

  /** Toggling the mode twice gets back to where it started. */
  lemma ToggleModeInvolution(m: Mode)
    ensures ToggledMode(ToggledMode(m)) == m
  {
  }

  /** The display name App_GetModeName gives to a mode. */
  function ModeName(m: Mode): (name: string)
    ensures name == "Desktop Control" <==> m == Desktop
    ensures m != Desktop ==> name == "Gamepad Mode"
  {
    if m == Desktop then "Desktop Control" else "Gamepad Mode"
  }

  /** Where the overlay's left edge is headed: on screen when visible, just off the right edge
      when hidden. */
  function SlideTarget(visible: bool, screenWidth: int): (t: int)
    ensures screenWidth - t == (if visible then OverlayWidth else 0)
  {
    if visible then screenWidth - OverlayWidth else screenWidth
  }

  /** One easing step of App_AnimateOverlay from `pos` toward `target`: the new position and
      whether the animation goes on. */
  function EaseStep(pos: int, target: int): (r: (int, bool))
    // never overshoots and never moves away from the target
    ensures pos <= target ==> pos <= r.0 <= target
    ensures target <= pos ==> target <= r.0 <= pos
    // the animation stops exactly when it snaps, and it snaps exactly within two pixels
    ensures !r.1 <==> Abs(target - pos) <= 2
    ensures !r.1 ==> r.0 == target
    ensures r.1 ==> r.0 != target
  {
    var diff := target - pos;
    if Abs(diff) > 2 then (pos + CDiv(diff, 5), true) else (target, false)
  }

  /** At a distance of 3 or 4 pixels the truncated fifth is 0: the step changes nothing and the
      animation is still running, so it never ends from there. */
  lemma {:induction false} EaseStallsAtThreeOrFour(pos: int, target: int)
    requires 3 <= Abs(target - pos) <= 4
    ensures EaseStep(pos, target) == (pos, true)
  {
    assert CDiv(target - pos, 5) == 0;
  }

  /** At 5 pixels or more every step strictly closes the gap. */
  lemma {:induction false} EaseProgressFromFive(pos: int, target: int)
    requires Abs(target - pos) >= 5
    ensures Abs(target - EaseStep(pos, target).0) < Abs(target - pos)
  {
    assert Abs(CDiv(target - pos, 5)) >= 1;
  }

  /** The gap target - position after `n` more timer ticks; once the position has snapped the
      gap is 0 and the timer handler no longer calls the step. */
  function GapAfter(gap: int, n: nat): (g: int)
    ensures Abs(g) <= Abs(gap)
    decreases n
  {
    if n == 0 then gap
    else if Abs(gap) <= 2 then 0
    else GapAfter(gap - CDiv(gap, 5), n - 1)
  }

  /** The gap is a property of the distance alone: moving position and target together does
      not change the step. */
  lemma {:induction false} EaseStepGap(pos: int, target: int)
    ensures target - EaseStep(pos, target).0 == GapAfter(target - pos, 1)
  {
  }

  /** Running a + b ticks is running a ticks, then b more. */
  lemma {:induction false} GapAfterAdd(gap: int, a: nat, b: nat)
    ensures GapAfter(gap, a + b) == GapAfter(GapAfter(gap, a), b)
    decreases a
  {
    if a == 0 {
    } else if Abs(gap) <= 2 {
      GapZeroStays(b);
    } else {
      GapAfterAdd(gap - CDiv(gap, 5), a - 1, b);
    }
  }

  /** Once snapped, the gap stays 0. */
  lemma {:induction false} GapZeroStays(n: nat)
    ensures GapAfter(0, n) == 0
  {
  }

  /** A gap of 4 pixels (either side) is a fixed point. */
  lemma {:induction false} GapFourStays(n: nat)
    ensures GapAfter(4, n) == 4 && GapAfter(-4, n) == -4
    decreases n
  {
    if n > 0 {
      GapFourStays(n - 1);
    }
  }

  /** The gaps visited when the overlay slides 400 pixels: each is the previous one minus its
      truncated fifth. */
  const SlideOrbit: seq<int> :=
    [400, 320, 256, 205, 164, 132, 106, 85, 68, 55, 44, 36, 29, 24, 20, 16, 13, 11, 9, 8, 7, 6, 5, 4]

  lemma {:induction false} SlideOrbitSteps(i: nat)
    requires i + 1 < |SlideOrbit|
    ensures Abs(SlideOrbit[i]) > 2
    ensures SlideOrbit[i + 1] == SlideOrbit[i] - CDiv(SlideOrbit[i], 5)
  {
  }

  /** From the i-th gap of the orbit, the remaining 23 - i ticks end at 4. */
  lemma {:induction false} SlideOrbitEnds(gap: int, i: nat)
    requires i < |SlideOrbit| && gap == SlideOrbit[i]
    ensures GapAfter(gap, |SlideOrbit| - 1 - i) == 4
    decreases |SlideOrbit| - i
  {
    if i + 1 < |SlideOrbit| {
      SlideOrbitSteps(i);
      SlideOrbitEnds(gap - CDiv(gap, 5), i + 1);
    }
  }

  /** Sliding the full overlay width reaches a gap of exactly 4 pixels after 23 ticks and
      stays there on every later tick. */
  lemma {:induction false} WidthSettles(width: int, n: nat)
    requires width == OverlayWidth && n >= |SlideOrbit| - 1
    ensures GapAfter(width, n) == 4
  {
    var k := |SlideOrbit| - 1;
    SlideOrbitEnds(width, 0);
    GapAfterAdd(width, k, n - k);
    GapFourStays(n - k);
  }

  /** A slide that starts where an earlier one settled is 4 pixels shorter: 396, 317, 254,
      204, and then it joins the full-width orbit at 164. */
  lemma {:induction false} ShortSlideSettles(gap: int, n: nat)
    requires gap == OverlayWidth - 4 && n >= |SlideOrbit| - 1
    ensures GapAfter(gap, n) == 4
  {
    var k := |SlideOrbit| - 1;
    GapStep(396, n - 1);
    GapStep(317, n - 2);
    GapStep(254, n - 3);
    GapStep(204, n - 4);
    SlideOrbitEnds(164, 4);
    GapAfterAdd(164, k - 4, n - k);
    GapFourStays(n - k);
  }

  /** One tick of a gap wider than 2 pixels takes off its truncated fifth. */
  lemma GapStep(gap: int, n: nat)
    requires Abs(gap) > 2
    ensures GapAfter(gap, n + 1) == GapAfter(gap - CDiv(gap, 5), n)
  {
  }

  /** In either direction the slide settles 4 pixels short of its target, whether it starts
      from the full width or from the 396 pixels an earlier settled slide leaves: the
      animation never finishes. */
  lemma {:induction false} SlideSettlesAtFour(gap: int, n: nat)
    requires Abs(gap) == OverlayWidth || Abs(gap) == OverlayWidth - 4
    requires n >= |SlideOrbit| - 1
    ensures GapAfter(gap, n) == (if gap > 0 then 4 else -4)
  {
    var g := Abs(gap);
    if g == OverlayWidth {
      WidthSettles(g, n);
    } else {
      ShortSlideSettles(g, n);
    }
    if gap < 0 {
      GapAfterOdd(g, n);
    }
  }

  /** The easing is symmetric: sliding out mirrors sliding in. */
  lemma {:induction false} GapAfterOdd(gap: int, n: nat)
    ensures GapAfter(-gap, n) == -GapAfter(gap, n)
    decreases n
  {
    if n > 0 && Abs(gap) > 2 {
      var next := gap - CDiv(gap, 5);
      CDivOdd(gap, 5);
      assert -gap - CDiv(-gap, 5) == -next;
      GapAfterOdd(next, n - 1);
    }
  }

  /** A gap of 3 pixels or more never drops to 2 or less: from 5 up a step keeps at least four
      fifths of it, and 3 and 4 are fixed points. So once the overlay is 3 or more pixels from
      its target, App_AnimateOverlay never snaps, never clears isAnimating, and (when hiding)
      never hides the window. */
  lemma {:induction false} GapNeverCloses(gap: int, n: nat)
    requires Abs(gap) >= 3
    ensures Abs(GapAfter(gap, n)) >= 3
    decreases n
  {
    if n > 0 {
      var q := CDiv(gap, 5);
      assert Abs(gap - q) >= 3 by {
        if Abs(gap) >= 5 {
          assert 5 * Abs(q) <= Abs(gap);
        } else {
          assert q == 0;
        }
      }
      GapNeverCloses(gap - q, n - 1);
    }
  }

  /** The part of g_appState that the input engine and the overlay animation use. */
  class AppState {
    var currentMode: Mode
    var isOverlayVisible: bool
    var isAnimating: bool
    /** The x position of the overlay's left edge. */
    var overlaySlidePosition: int

    /** The state App_Initialize leaves: gamepad mode, overlay hidden and not animating, and
        the overlay window created just off the right edge of the screen. */
    constructor (screenWidth: int)
      ensures currentMode == Gamepad && !isOverlayVisible && !isAnimating
      ensures overlaySlidePosition == screenWidth
    {
      currentMode := Gamepad;
      isOverlayVisible := false;
      isAnimating := false;
      overlaySlidePosition := screenWidth;
    }

    /** App_ToggleMode: switches between gamepad and desktop-control mode. */
    method ToggleMode()
      modifies this
      ensures currentMode == ToggledMode(old(currentMode))
      ensures isOverlayVisible == old(isOverlayVisible) && isAnimating == old(isAnimating)
      ensures overlaySlidePosition == old(overlaySlidePosition)
    {
      currentMode := if currentMode == Desktop then Gamepad else Desktop;
    }

    /** App_ToggleOverlay: flips visibility and starts the slide animation either way. */
    method ToggleOverlay()
      modifies this
      ensures isOverlayVisible == !old(isOverlayVisible)
      ensures isAnimating
      ensures currentMode == old(currentMode) && overlaySlidePosition == old(overlaySlidePosition)
    {
      isOverlayVisible := !isOverlayVisible;
      if isOverlayVisible {
        isAnimating := true;
      } else {
        isAnimating := true;
      }
    }

    /** App_AnimateOverlay: one easing step toward the target for the current visibility. */
    method AnimateOverlay(screenWidth: int)
      modifies this
      ensures overlaySlidePosition
           == EaseStep(old(overlaySlidePosition), SlideTarget(isOverlayVisible, screenWidth)).0
      ensures isAnimating
           == (old(isAnimating) && EaseStep(old(overlaySlidePosition), SlideTarget(isOverlayVisible, screenWidth)).1)
      ensures SlideTarget(isOverlayVisible, screenWidth) - overlaySlidePosition
           == GapAfter(SlideTarget(isOverlayVisible, screenWidth) - old(overlaySlidePosition), 1)
      ensures currentMode == old(currentMode) && isOverlayVisible == old(isOverlayVisible)
    {
      var targetPos;
      if isOverlayVisible {
        targetPos := screenWidth - OverlayWidth;
      } else {
        targetPos := screenWidth;
      }
      var diff := targetPos - overlaySlidePosition;
      if Abs(diff) > 2 {
        overlaySlidePosition := overlaySlidePosition + CDiv(diff, 5);
      } else {
        overlaySlidePosition := targetPos;
        isAnimating := false;
      }
      EaseStepGap(old(overlaySlidePosition), targetPos);
    }

    /** The overlay window's WM_TIMER handler: steps the animation only while it runs. */
    method OnAnimationTimer(screenWidth: int)
      modifies this
      ensures old(isAnimating) ==>
        (overlaySlidePosition, isAnimating)
          == EaseStep(old(overlaySlidePosition), SlideTarget(isOverlayVisible, screenWidth))
      ensures !old(isAnimating) ==> overlaySlidePosition == old(overlaySlidePosition) && !isAnimating
      ensures currentMode == old(currentMode) && isOverlayVisible == old(isOverlayVisible)
    {
      if isAnimating {
        AnimateOverlay(screenWidth);
        assert (overlaySlidePosition, isAnimating)
            == EaseStep(old(overlaySlidePosition), SlideTarget(isOverlayVisible, screenWidth));
      }
    }

    /** App_GetModeName. */
    function GetModeName(): (name: string)
      reads this
      ensures name == "Desktop Control" <==> currentMode == Desktop
      ensures currentMode != Desktop ==> name == "Gamepad Mode"
    {
      ModeName(currentMode)
    }
  }
}
