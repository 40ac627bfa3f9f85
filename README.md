# Native control interaction and window shape (Dafny model)

This project models two parts of the `nativeui` toolkit and proves properties about them.

**Button interaction on Windows** (`nativeui/win/button_win.cc`, module `ButtonWin`).
Push buttons, checkboxes and radio buttons share one state machine:
- Each button has a hover flag and a capture flag, a `ControlState` (Normal, Hovered or Pressed) and a checked flag.
- Mouse enter, mouse leave, mouse clicks and loss of the mouse capture move that state.
- A click toggles a checkbox or checks a radio, and then emits `on_click`.
- Checking a radio unchecks the other radios among its container's direct children.

The model has two layers:
- `WinState` is a value. It holds the view hierarchy (a sequence of nodes addressed by index), one `ButtonState` per view, the window's capture and focus owners as optional indices, and a log of every `on_click` emission with the button states its observers see.
- Each handler is a pure transition on `WinState`. The class `Window` holds the same fields and updates them in place, as `ButtonImpl` does. Each of its methods is proved to produce exactly the transition of its handler.

Lemmas prove two invariants and that every event preserves them, so they hold after any sequence of events on a fixed hierarchy:
- capture consistency: at most one button believes it holds the capture, and a button is Pressed exactly when it holds it;
- radio exclusivity: at most one checked radio among any container's direct children.

**Shape region and window bookkeeping on GTK** (`nativeui/gtk/widget_util.cc`, module `WidgetUtil`):
- `CreateRegionFromSurface` scans an A8 alpha grid row by row. It emits one 1-pixel-tall rectangle per maximal run of non-zero alpha and moves the result to the extents origin. It is proved to cover exactly the non-transparent pixels, with pairwise-disjoint, maximal runs.
- `CairoSurfaceExtents` implements the integer range check on the extents.
- `GetClientShadow` computes the client-shadow insets.
- The class `GtkWindow` tracks the name-keyed style providers (`ApplyStyle`), client-side decoration (`EnableCSD`, `DisableCSD`, `IsUsingCSD`) and the size requests set by `ResizeWindow`, together with the order of its sizing calls.

Three behaviours of the code are worth stating plainly, since the model follows them:
- `DisableCSD` (`widget_util.cc:159-162`) leaves the "rectangle-decoration" style in place, so a later `EnableCSD` does not apply it again. `GtkWindow.DisableCSD` and `GtkWindow.EnableCSD` state this.
- `button_win.cc` has no Disabled state that suppresses transitions, so `ControlState` has none.
- A left-button release sets Hovered without looking at the hover flag (`button_win.cc:241`). The state depends on hovering only through the capture-lost handler that `ReleaseCapture` runs when the button holds the capture. `MouseClicked` states both cases.

## Model

| member | source | states |
|---|---|---|
| `ButtonWin.SetCheckedIn` | nativeui/win/button_win.cc:84-103 | SetChecked(v): a no-op when the flag already is v; otherwise the button's flag becomes v; only checked flags change; only sibling radios of a radio in a container change, and they become unchecked |
| `ButtonWin.SetCheckedSoleRadio` | nativeui/win/button_win.cc:91-102 | after SetChecked(true) on a radio in a container (unchecked before, or radios exclusive before), it is the only checked radio among the container's direct children, and no view outside those children changes |
| `ButtonWin.SetCheckedKeepsExclusive` | nativeui/win/button_win.cc:84-103 | SetChecked, with either value, keeps radios exclusive among every container's direct children |
| `ButtonWin.MouseEntered` | nativeui/win/button_win.cc:204-211 | hovering becomes true; the state becomes Hovered when not capturing and is unchanged when capturing; nothing else changes |
| `ButtonWin.MouseLeft` | nativeui/win/button_win.cc:213-220 | hovering becomes false; the state becomes Normal when not capturing and is unchanged when capturing; nothing else changes |
| `ButtonWin.CaptureLostBy` | nativeui/win/button_win.cc:249-253 | capturing becomes false; the state becomes Hovered if hovering, else Normal (never Pressed); no click is emitted |
| `ButtonWin.CaptureReleased` | nativeui/win/button_win.cc:244 | the window's ReleaseCapture: the capture slot is cleared, and its holder, if any, runs its capture-lost handler |
| `ButtonWin.CaptureSet` | nativeui/win/button_win.cc:234 | the window's SetCapture(i): i owns the capture; a previous holder other than i runs its capture-lost handler |
| `ButtonWin.Clicked` | nativeui/win/button_win.cc:75-82 | OnClick: a checkbox toggles and no other view changes; an unchecked radio gets exactly the effect of SetChecked(true), which unchecks its sibling radios; a push button and an already-checked radio change nothing; only checked flags change; exactly one `on_click` is appended, and its observers see the new flags |
| `ButtonWin.ClickedRadioSole` | nativeui/win/button_win.cc:75-103 | after a click on a radio in a container, it is checked and is the only checked radio among the container's direct children |
| `ButtonWin.MouseClicked` | nativeui/win/button_win.cc:222-247 | a left-button press focuses the button even when the base handler consumes the message, and a consumed message changes nothing else. An unconsumed press is exactly `PressTaken`: the button captures and is Pressed, and only the previous holder loses the capture. An unconsumed release leaves no capture and emits one click, by the button and showing the flags `OnClick` leaves, if and only if the button was Pressed. The button ends Hovered, or Normal when it held the capture and was not hovered; if it held the capture it is no longer capturing. The previous holder, if another button, loses the capture. Every other button keeps all fields except the checked flags `OnClick` changes. Any other message only releases the capture |
| `ButtonWin.PressTaken` | nativeui/win/button_win.cc:232-236 | an unconsumed press: the button captures and is Pressed, the window's capture slot names it, the previous holder lost the capture, and no other button changes |
| `ButtonWin.ReleaseHandled` | nativeui/win/button_win.cc:238-243 | an unconsumed release before the capture is released: clicked if and only if Pressed, then Hovered; apart from the state of the button itself, every button equals the result of `OnClick` (or is unchanged when not Pressed) |
| `ButtonWin.Released` | nativeui/win/button_win.cc:237-245 | the whole unconsumed release: no capture remains; one click, by the button and showing the flags `OnClick` leaves, exactly when it was Pressed; it ends Hovered, or Normal when it held the capture and was not hovered; a different previous holder loses the capture; every other button equals the result of `OnClick` |
| `ButtonWin.Initial` | nativeui/win/button_win.cc:258-273 | freshly constructed buttons (Normal, not hovering, not capturing, unchecked) with no capture owner satisfy capture consistency and radio exclusivity |
| `ButtonWin.CaptureReleasedKeepsConsistent` | nativeui/win/button_win.cc:249-253 | releasing the capture restores capture consistency even when its holder was left in any state |
| `ButtonWin.StepKeepsConsistent` | nativeui/win/button_win.cc:204-253 | every event keeps the capture slot, the capture flags and the Pressed state in agreement |
| `ButtonWin.StepKeepsExclusive` | nativeui/win/button_win.cc:75-103 | every event keeps radios exclusive among each container's direct children |
| `ButtonWin.RunKeepsInvariants` | nativeui/win/button_win.cc:75-253 | after any sequence of events, both invariants still hold (induction over the sequence) |
| `ButtonWin.PressSurvives` | nativeui/win/button_win.cc:204-220 | hover events and SetChecked calls on any buttons leave a Pressed button that holds the capture Pressed and holding it, and emit no click |
| `ButtonWin.PressThenRelease` | nativeui/win/button_win.cc:222-253 | an unconsumed press on a button, then any hover or SetChecked events on any buttons, then an unconsumed release on the same button: it is focused, `on_click` is emitted exactly once, by that button, with the flags `OnClick` leaves; no capture remains; the button ends Hovered or Normal as the pointer is over it or not at the release |
| `ButtonWin.CaptureLossCancelsPress` | nativeui/win/button_win.cc:249-253 | a capture change while a button is Pressed leaves it Hovered or Normal and emits no click |
| `ButtonWin.Window.constructor` | nativeui/win/button_win.cc:32-39 | a window whose buttons are freshly constructed |
| `ButtonWin.Window.IsChecked` | nativeui/win/button_win.cc:105-107 | IsChecked, and the Button::IsChecked forwarder, report the checked flag |
| `ButtonWin.Window.OnMouseEnter` | nativeui/win/button_win.cc:204-211 | updates the fields in place to exactly `MouseEntered` |
| `ButtonWin.Window.OnMouseLeave` | nativeui/win/button_win.cc:213-220 | updates the fields in place to exactly `MouseLeft` |
| `ButtonWin.Window.OnCaptureLost` | nativeui/win/button_win.cc:249-253 | updates the fields in place to exactly `CaptureLostBy` |
| `ButtonWin.Window.SetCapture` | nativeui/win/button_win.cc:234 | the window's SetCapture, to exactly `CaptureSet` |
| `ButtonWin.Window.ReleaseCapture` | nativeui/win/button_win.cc:244 | the window's ReleaseCapture, to exactly `CaptureReleased` |
| `ButtonWin.Window.SetChecked` | nativeui/win/button_win.cc:84-103 | SetChecked, and the Button::SetChecked forwarder: the loop over the container's children and the recursive SetChecked(false) calls yield exactly `SetCheckedIn`; the recursion is one level deep |
| `ButtonWin.Window.OnClick` | nativeui/win/button_win.cc:75-82 | updates the fields in place to exactly `Clicked` |
| `ButtonWin.Window.OnMouseClick` | nativeui/win/button_win.cc:222-247 | always returns true and updates the fields to exactly `MouseClicked` |
| `WidgetUtil.CairoSurfaceExtents` | nativeui/gtk/widget_util.cc:20-48 | extents are refused exactly when the origin lies outside the int range or the size exceeds G_MAXINT; refused extents are all zero; accepted extents span exactly the clip box and fit the int range |
| `WidgetUtil.ExtentsEdgeUnbounded` | nativeui/gtk/widget_util.cc:36-47 | the check accepts any origin in the int range with a size up to G_MAXINT, even when origin plus size exceeds G_MAXINT |
| `WidgetUtil.CreateRegionFromSurface` | nativeui/gtk/widget_util.cc:58-115 | colour-only content gives exactly the extents rectangle; otherwise the region consists of 1-pixel-tall, non-empty rectangles inside the extents, covers exactly the pixels with non-zero alpha, has pairwise-disjoint rectangles, and each rectangle is a maximal run |
| `WidgetUtil.TransparentMaskEmptyRegion` | nativeui/gtk/widget_util.cc:87-107 | a mask that is transparent everywhere yields an empty region |
| `WidgetUtil.ScanRun` | nativeui/gtk/widget_util.cc:89-106 | recording a maximal run and stepping past its end keeps the scan invariant |
| `WidgetUtil.ScanSkip` | nativeui/gtk/widget_util.cc:88-98 | stepping over a transparent pixel keeps the scan invariant |
| `WidgetUtil.ScanNextRow` | nativeui/gtk/widget_util.cc:87-110 | finishing a row carries the scan invariant to the start of the next row |
| `WidgetUtil.CoveredAppend` | nativeui/gtk/widget_util.cc:105 | adding a rectangle to a region adds exactly that rectangle's pixels |
| `WidgetUtil.Translate` | nativeui/gtk/widget_util.cc:113 | a translated region covers (px, py) exactly when the original covers (px - dx, py - dy) |
| `WidgetUtil.TranslatedRuns` | nativeui/gtk/widget_util.cc:112-114 | the runs found in grid coordinates, moved to the extents origin, satisfy the region contract |
| `WidgetUtil.GetClientShadow` | nativeui/gtk/widget_util.cc:196-210 | expanding the shadow-less bounds by the returned insets gives the shadow bounds exactly |
| `WidgetUtil.ClientShadowUnique` | nativeui/gtk/widget_util.cc:206-209 | these insets are the only ones that expand the bounds to the shadow bounds |
| `WidgetUtil.Without` | nativeui/gtk/widget_util.cc:121-124 | removing a provider from the style context keeps every other provider and no copy of it |
| `WidgetUtil.GtkWindow.IsUsingCSD` | nativeui/gtk/widget_util.cc:137-141 | the window uses CSD exactly when its style classes include "csd" or "csd-solid" |
| `WidgetUtil.WithoutNoDuplicates` | nativeui/gtk/widget_util.cc:121-124 | removing a provider from a list without repetitions leaves a list without repetitions |
| `WidgetUtil.GtkWindow.ApplyStyle` | nativeui/gtk/widget_util.cc:117-135 | the provider stored under the name (if any) is detached; a new provider for the CSS is attached last and stored under the name; every attached provider is stored under exactly one name |
| `WidgetUtil.GtkWindow.EnableCSD` | nativeui/gtk/widget_util.cc:143-157 | decorated, with the placeholder label as titlebar, and the window then uses CSD (it gains "csd", or "csd-solid" without compositing, under the assumption stated below); the rectangle-decoration style is applied only when the window has none, so repeated calls do not stack providers |
| `WidgetUtil.GtkWindow.DisableCSD` | nativeui/gtk/widget_util.cc:159-162 | no titlebar and not decorated; "csd" is removed, so the window keeps using CSD exactly when it had "csd-solid" (under the assumption stated below); the styles, including rectangle-decoration, are kept |
| `WidgetUtil.GtkWindow.ForceSizeAllocation` | nativeui/gtk/widget_util.cc:212-222 | the vbox is allocated the window's current size at the origin, and that allocation is the one sizing call made |
| `WidgetUtil.GtkWindow.ResizeWindow` | nativeui/gtk/widget_util.cc:224-248 | the sizing calls, in order: clear the window's request, clear the vbox's request; then resize a resizable window, or give a fixed window without CSD a window request, or give a fixed window with CSD a vbox request; then set the default size to (w, h); the vbox allocation comes last. The resulting requests and default size match those calls |

## Left out

- `ButtonImpl::Draw` (button_win.cc:110-183): painting through the native theme, text and the focus ring, with floating-point scaling.
- `OnDPIChanged`, `SetTitle`, `GetTitle`, `SetImage`, `GetDIPPreferredSize`, `Button::GetMinimumSize` (button_win.cc:41-73, 185-202, 312-315): theme part sizes, text measurement and float arithmetic.
- The UTF-8/UTF-16 title wrappers and `Button::Button` (button_win.cc:281-297): foreign string conversion. The model starts from a given hierarchy of freshly constructed buttons.
- `Invalidate()` calls and the base-class calls `ViewImpl::OnMouseEnter`/`OnMouseLeave` (button_win.cc:208-210, 217-219): repaint requests and base-class behaviour defined outside this file.
- The focus manager (`TakeFocus`) and the window's `SetCapture`/`ReleaseCapture` live in window_win.cc, which is not part of this model. Focus is a slot that a press sets. For capture the model assumes two things: acquiring it makes a different previous holder run its capture-lost handler at once, and releasing it (or losing it from outside) clears the slot and runs the holder's handler.
- Handlers connected to `on_click` are not run. The model records each emission and the state its observers see; a handler that re-enters the button is not modelled.
- `GetNativeFrameInsets` (widget_util.cc:164-194): an X11 property query whose result is divided by the float scale factor.
- `GetPreferredSizeForWidget` and the measuring calls in `ForceSizeAllocation` (widget_util.cc:52-56, 216-217): thin GTK wrappers. Only the final allocation is kept.
- In `CairoSurfaceExtents` (widget_util.cc:21-34), the null-argument guards and the cairo context are left out, and so are `floor`/`ceil` on doubles. The clip box enters the model already rounded to integers.
- In `CreateRegionFromSurface` (widget_util.cc:65-80), the cairo painting that coerces a surface to A8 is left out. The A8 image is a parameter, with pixel (0, 0) at the extents origin. cairo's internal banded representation of a region is not modelled; a region is a list of rectangles whose meaning is the set of pixels they cover.
- `CairoSurfaceExtents`: the source checks no lower bound on the width and height. The model proves they fit the int range only when the clip box is ordered (x1 <= x2, y1 <= y2), which cairo's clip extents always are.
- `GetClientShadow`: C `int` overflow in the sums and the conversion of the insets to `float` are not modelled. The realized-window debug check (widget_util.cc:197-198) is the caller's obligation; the queried geometry is a parameter.
- CSS parsing: a style provider is a token carrying its CSS text. The window's current size, which the window manager decides, is never changed by the model; `gtk_window_resize` is recorded as a request.
- GtkWindow.EnableCSD: that setting a titlebar adds the "csd" class ("csd-solid" on a screen that does not composite) is a plain assumption about GTK, which is not part of this model, and has not been checked against GTK's code.
- GtkWindow.DisableCSD: that removing the titlebar takes away "csd" and nothing else is a plain assumption of the same kind. Under it a window on a screen that does not composite keeps "csd-solid", so `IsUsingCSD` stays true after `DisableCSD` and a later fixed-size `ResizeWindow` still sets the vbox's request.
- CreateRegionFromSurface: the range check in `CairoSurfaceExtents` (widget_util.cc:36-38) bounds x1, y1, the width and the height separately, never x1 + width or y1 + height. Accepted extents may therefore end past G_MAXINT (`ExtentsEdgeUnbounded` exhibits such a clip). cairo's regions hold C ints and cannot represent those pixels, while the model's unbounded rectangles do, so for such extents the model's pixel set differs from what cairo builds.
- The view hierarchy is fixed. Adding or removing views is not modelled. Radio exclusivity is enforced only when SetChecked runs: a radio checked while it has no container parent (the guard at `button_win.cc:92-94` skips the sibling loop) and later added to a container beside a checked radio would give two checked radios, and the model does not cover that.
- Reference counting of providers (`g_object_set_data_full` with `g_object_unref`) is not modelled.
