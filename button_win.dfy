/**
 * Model of nativeui/win/button_win.cc: the interaction state machine shared
 * by push buttons, checkboxes and radio buttons (hover, capture, press,
 * click) and the exclusivity of radio buttons within a container.
 *
 * The view hierarchy of one window is a sequence of nodes addressed by
 * index; the fields ButtonImpl updates in place live in a parallel sequence
 * of button states; the window's capture and focus owners are optional
 * indices; every `on_click` emission is appended to a log together with the
 * button states its observers see.
 */
module ButtonWin {
  import opened Wrappers

  // ---------------------------------------------------------------------
  // Data model
  // ---------------------------------------------------------------------

  /** The native control type of a view, as far as this file tells types apart. */
  datatype ControlType = Button | Checkbox | Radio | Container | Other

  predicate IsButton(k: ControlType) {
    k == Button || k == Checkbox || k == Radio
  }

  datatype ControlState = Normal | Hovered | Pressed

  /** A view's place in the hierarchy, which the handlers never change. */
  datatype Node = Node(kind: ControlType, parent: Option<nat>, children: seq<nat>)

  /** The fields of ButtonImpl the handlers update: state(), is_hovering_, is_capturing_, params_.checked. */
  datatype ButtonState = ButtonState(state: ControlState, hovering: bool, capturing: bool, checked: bool)

  /** The mouse message OnMouseClick receives. */
  datatype Message = LButtonDown | LButtonUp | OtherButton

  /** One emission of `on_click` by view `source`; `seen` is the state its observers see. */
  datatype Click = Click(source: nat, seen: seq<ButtonState>)

  /** Everything the handlers of one window read or change. */
  datatype WinState = WinState(tree: seq<Node>, buttons: seq<ButtonState>,
                               capture: Option<nat>, focus: Option<nat>, clicks: seq<Click>)

  /**
   * Parents and children are views of the window, a view is among its
   * parent's children exactly when it names that parent, and only
   * containers have children.
   */
  predicate WellFormed(tree: seq<Node>) {
    (forall c :: 0 <= c < |tree| && tree[c].parent.Some? ==>
       tree[c].parent.value < |tree| && c in tree[tree[c].parent.value].children)
    && (forall p, k :: 0 <= p < |tree| && 0 <= k < |tree[p].children| ==>
          tree[p].children[k] < |tree| && tree[tree[p].children[k]].parent == Some(p))
    && (forall p :: 0 <= p < |tree| && tree[p].kind != Container ==> tree[p].children == [])
  }

  /** A well-formed hierarchy, one button state per view, and slots naming views of it. */
  predicate ValidState(s: WinState) {
    WellFormed(s.tree) && |s.buttons| == |s.tree|
    && (s.capture.Some? ==> s.capture.value < |s.tree| && IsButton(s.tree[s.capture.value].kind))
    && (s.focus.Some? ==> s.focus.value < |s.tree|)
  }

  /** The handlers of ButtonImpl can be invoked on view i. */
  predicate IsButtonOf(s: WinState, i: nat) {
    ValidState(s) && i < |s.tree| && IsButton(s.tree[i].kind)
  }

  // ---------------------------------------------------------------------
  // SetChecked and radio exclusivity
  // ---------------------------------------------------------------------

  /** View i is a radio whose parent is a container: checking it unchecks its siblings. */
  predicate InRadioGroup(tree: seq<Node>, i: nat)
    requires WellFormed(tree) && i < |tree|
  {
    tree[i].kind == Radio && tree[i].parent.Some? && tree[tree[i].parent.value].kind == Container
  }

  /** View j is a radio among the direct children of radio i's container, other than i. */
  predicate SiblingRadio(tree: seq<Node>, i: nat, j: nat)
    requires WellFormed(tree) && i < |tree| && j < |tree|
  {
    InRadioGroup(tree, i) && j != i && tree[j].kind == Radio
    && j in tree[tree[i].parent.value].children
  }

  /** View c is a checked radio. */
  predicate CheckedRadio(tree: seq<Node>, buttons: seq<ButtonState>, c: nat)
    requires |buttons| == |tree| && c < |tree|
  {
    tree[c].kind == Radio && buttons[c].checked
  }

  /** Among the direct children of any view, at most one radio is checked. */
  predicate RadiosExclusive(tree: seq<Node>, buttons: seq<ButtonState>)
    requires WellFormed(tree) && |buttons| == |tree|
  {
    forall p, k1, k2 ::
      0 <= p < |tree| && 0 <= k1 < |tree[p].children| && 0 <= k2 < |tree[p].children|
      && CheckedRadio(tree, buttons, tree[p].children[k1])
      && CheckedRadio(tree, buttons, tree[p].children[k2])
      ==> tree[p].children[k1] == tree[p].children[k2]
  }

  /**
   * ButtonImpl::SetChecked(v) on view i: nothing happens when the flag
   * already is v; otherwise the flag becomes v and, when v is true and i is
   * a radio in a container, every other radio among that container's direct
   * children is unchecked (SetChecked(false) on them, which never recurses).
   */
  function SetCheckedIn(tree: seq<Node>, buttons: seq<ButtonState>, i: nat, v: bool): (r: seq<ButtonState>)
    requires WellFormed(tree) && |buttons| == |tree| && i < |tree|
    ensures |r| == |buttons|
    ensures r[i] == buttons[i].(checked := v)
    ensures buttons[i].checked == v ==> r == buttons
    ensures forall j :: 0 <= j < |r| ==> r[j] == buttons[j].(checked := r[j].checked)
    ensures forall j :: 0 <= j < |r| && j != i && r[j] != buttons[j] ==>
              v && !buttons[i].checked && SiblingRadio(tree, i, j) && !r[j].checked
    ensures v && !buttons[i].checked ==>
              forall j :: 0 <= j < |r| && SiblingRadio(tree, i, j) ==> !r[j].checked
  {
    if buttons[i].checked == v then buttons
    else if v && InRadioGroup(tree, i) then
      seq(|buttons|, j requires 0 <= j < |buttons| =>
        if j == i then buttons[i].(checked := true)
        else if SiblingRadio(tree, i, j) then buttons[j].(checked := false)
        else buttons[j])
    else buttons[i := buttons[i].(checked := v)]
  }

  /**
   * After SetChecked(true) on a radio in a container, it is the only checked
   * radio among the container's direct children; views that are not among
   * those children are untouched, so nested containers are not traversed.
   */
  lemma SetCheckedSoleRadio(tree: seq<Node>, buttons: seq<ButtonState>, i: nat)
    requires WellFormed(tree) && |buttons| == |tree| && i < |tree|
    requires InRadioGroup(tree, i)
    requires !buttons[i].checked || RadiosExclusive(tree, buttons)
    ensures var r := SetCheckedIn(tree, buttons, i, true);
            var p := tree[i].parent.value;
            r[i].checked
            && (forall k :: 0 <= k < |tree[p].children| && CheckedRadio(tree, r, tree[p].children[k]) ==>
                  tree[p].children[k] == i)
            && (forall j :: 0 <= j < |tree| && j != i && j !in tree[p].children ==> r[j] == buttons[j])
  {
  }

  /** SetChecked keeps radios exclusive among the direct children of every view. */
  lemma {:induction false} SetCheckedKeepsExclusive(tree: seq<Node>, buttons: seq<ButtonState>, i: nat, v: bool)
    requires WellFormed(tree) && |buttons| == |tree| && i < |tree|
    requires RadiosExclusive(tree, buttons)
    ensures RadiosExclusive(tree, SetCheckedIn(tree, buttons, i, v))
  {
    var r := SetCheckedIn(tree, buttons, i, v);
    forall p, k1, k2 |
      0 <= p < |tree| && 0 <= k1 < |tree[p].children| && 0 <= k2 < |tree[p].children|
      && CheckedRadio(tree, r, tree[p].children[k1]) && CheckedRadio(tree, r, tree[p].children[k2])
      ensures tree[p].children[k1] == tree[p].children[k2]
    {
      var c1, c2 := tree[p].children[k1], tree[p].children[k2];
      if c1 != i && c2 != i {
        // Neither is the view being set: both were checked radios before.
        assert CheckedRadio(tree, buttons, c1) && CheckedRadio(tree, buttons, c2);
      } else if v && !buttons[i].checked && InRadioGroup(tree, i) {
        // p is i's container, and every other radio child of it was unchecked.
        assert tree[i].parent == Some(p);
      } else if v && !buttons[i].checked {
        // i is a checked child of p, so p is a container and i is not a radio.
        assert tree[i].parent == Some(p) && tree[p].kind == Container;
      } else {
        assert r[i].checked ==> buttons[i].checked;
        assert CheckedRadio(tree, buttons, c1) && CheckedRadio(tree, buttons, c2);
      }
    }
  }

  // ---------------------------------------------------------------------
  // The event handlers, as transitions of the window's state
  // ---------------------------------------------------------------------

  /** ButtonImpl::OnMouseEnter: hovering; Hovered unless the button holds the capture. */
  function MouseEntered(s: WinState, i: nat): (r: WinState)
    requires IsButtonOf(s, i)
    ensures ValidState(r) && r.tree == s.tree
    ensures r.capture == s.capture && r.focus == s.focus && r.clicks == s.clicks
    ensures |r.buttons| == |s.buttons|
    ensures forall j :: 0 <= j < |r.buttons| && j != i ==> r.buttons[j] == s.buttons[j]
    ensures r.buttons[i].hovering
    ensures r.buttons[i].state == (if s.buttons[i].capturing then s.buttons[i].state else Hovered)
    ensures r.buttons[i].capturing == s.buttons[i].capturing && r.buttons[i].checked == s.buttons[i].checked
  {
    var b := s.buttons[i].(hovering := true);
    var b' := if b.capturing then b else b.(state := Hovered);
    s.(buttons := s.buttons[i := b'])
  }

  /** ButtonImpl::OnMouseLeave: not hovering; Normal unless the button holds the capture. */
  function MouseLeft(s: WinState, i: nat): (r: WinState)
    requires IsButtonOf(s, i)
    ensures ValidState(r) && r.tree == s.tree
    ensures r.capture == s.capture && r.focus == s.focus && r.clicks == s.clicks
    ensures |r.buttons| == |s.buttons|
    ensures forall j :: 0 <= j < |r.buttons| && j != i ==> r.buttons[j] == s.buttons[j]
    ensures !r.buttons[i].hovering
    ensures r.buttons[i].state == (if s.buttons[i].capturing then s.buttons[i].state else Normal)
    ensures r.buttons[i].capturing == s.buttons[i].capturing && r.buttons[i].checked == s.buttons[i].checked
  {
    var b := s.buttons[i].(hovering := false);
    var b' := if b.capturing then b else b.(state := Normal);
    s.(buttons := s.buttons[i := b'])
  }

  /** ButtonImpl::OnCaptureLost: not capturing; Hovered or Normal as the pointer is over it or not. */
  function CaptureLostBy(s: WinState, i: nat): (r: WinState)
    requires IsButtonOf(s, i)
    ensures ValidState(r) && r.tree == s.tree
    ensures r.capture == s.capture && r.focus == s.focus && r.clicks == s.clicks
    ensures |r.buttons| == |s.buttons|
    ensures forall j :: 0 <= j < |r.buttons| && j != i ==> r.buttons[j] == s.buttons[j]
    ensures !r.buttons[i].capturing && r.buttons[i].state != Pressed
    ensures r.buttons[i].state == (if s.buttons[i].hovering then Hovered else Normal)
    ensures r.buttons[i].hovering == s.buttons[i].hovering && r.buttons[i].checked == s.buttons[i].checked
  {
    var b := s.buttons[i];
    s.(buttons := s.buttons[i := b.(capturing := false, state := if b.hovering then Hovered else Normal)])
  }

  /**
   * The window's ReleaseCapture (window_win.cc is not part of this model):
   * the capture slot is cleared and its holder, if any, is told it lost the
   * capture. An external loss of capture is delivered the same way.
   */
  function CaptureReleased(s: WinState): (r: WinState)
    requires ValidState(s)
    ensures ValidState(r) && r.tree == s.tree && r.capture == None
    ensures r.focus == s.focus && r.clicks == s.clicks
    ensures s.capture.None? ==> r.buttons == s.buttons
    ensures s.capture.Some? ==> r.buttons == CaptureLostBy(s.(capture := None), s.capture.value).buttons
  {
    if s.capture.None? then s
    else CaptureLostBy(s.(capture := None), s.capture.value)
  }

  /**
   * The window's SetCapture(i) (window_win.cc is not part of this model): a
   * previous holder other than i loses the capture at once, and i becomes
   * the holder.
   */
  function CaptureSet(s: WinState, i: nat): (r: WinState)
    requires IsButtonOf(s, i)
    ensures ValidState(r) && r.tree == s.tree && r.capture == Some(i)
    ensures r.focus == s.focus && r.clicks == s.clicks
    ensures s.capture.Some? && s.capture.value != i ==>
              r.buttons == CaptureLostBy(s.(capture := None), s.capture.value).buttons
    ensures s.capture.None? || s.capture == Some(i) ==> r.buttons == s.buttons
  {
    var s1 := if s.capture.Some? && s.capture.value != i
              then CaptureLostBy(s.(capture := None), s.capture.value) else s;
    s1.(capture := Some(i))
  }

  /**
   * ButtonImpl::OnClick: a checkbox toggles, an unchecked radio becomes
   * checked (unchecking its siblings), anything else keeps its flag; then
   * `on_click` is emitted exactly once, and its observers see the new flags.
   */
  function Clicked(s: WinState, i: nat): (r: WinState)
    requires IsButtonOf(s, i)
    ensures ValidState(r) && r.tree == s.tree
    ensures r.capture == s.capture && r.focus == s.focus
    ensures r.clicks == s.clicks + [Click(i, r.buttons)]
    ensures |r.buttons| == |s.buttons|
    ensures forall j :: 0 <= j < |r.buttons| ==> r.buttons[j] == s.buttons[j].(checked := r.buttons[j].checked)
    ensures s.tree[i].kind == Checkbox ==> r.buttons[i].checked == !s.buttons[i].checked
    ensures s.tree[i].kind == Checkbox ==>
              forall j :: 0 <= j < |r.buttons| && j != i ==> r.buttons[j] == s.buttons[j]
    ensures s.tree[i].kind == Radio ==> r.buttons[i].checked
    ensures s.tree[i].kind == Radio && !s.buttons[i].checked ==>
              r.buttons == SetCheckedIn(s.tree, s.buttons, i, true)
    ensures s.tree[i].kind == Button || (s.tree[i].kind == Radio && s.buttons[i].checked) ==>
              r.buttons == s.buttons
  {
    var b := s.buttons[i];
    var buttons :=
      if s.tree[i].kind == Checkbox then SetCheckedIn(s.tree, s.buttons, i, !b.checked)
      else if s.tree[i].kind == Radio && !b.checked then SetCheckedIn(s.tree, s.buttons, i, true)
      else s.buttons;
    s.(buttons := buttons, clicks := s.clicks + [Click(i, buttons)])
  }

  /**
   * ButtonImpl::OnMouseClick. A left-button press moves the focus to the
   * button first, whatever happens next. If the base handler (given as
   * `baseHandled`) consumes the message, nothing else changes. Otherwise a
   * press takes the capture and makes the button Pressed; a release clicks
   * the button if and only if it was Pressed, makes it Hovered and releases
   * the capture; any other message only releases the capture.
   */
  function MouseClicked(s: WinState, i: nat, msg: Message, baseHandled: bool): (r: WinState)
    requires IsButtonOf(s, i)
    ensures ValidState(r) && r.tree == s.tree
    ensures r.focus == (if msg == LButtonDown then Some(i) else s.focus)
    ensures baseHandled ==> r.buttons == s.buttons && r.capture == s.capture && r.clicks == s.clicks
    ensures !baseHandled && msg == LButtonDown ==>
              r == PressTaken(s.(focus := Some(i)), i)
    ensures !baseHandled && msg == LButtonUp ==> r == Released(s, i)
    ensures !baseHandled && msg == OtherButton ==>
              r == CaptureReleased(s)
    ensures |r.buttons| == |s.buttons|
    ensures forall j :: 0 <= j < |r.buttons| ==>
              r.buttons[j].checked ==
                if !baseHandled && msg == LButtonUp && s.buttons[i].state == Pressed
                then Clicked(s, i).buttons[j].checked else s.buttons[j].checked
  {
    var s1 := if msg == LButtonDown then s.(focus := Some(i)) else s;
    if baseHandled then s1
    else if msg == LButtonDown then PressTaken(s1, i)
    else if msg == LButtonUp then Released(s1, i)
    else CaptureReleased(s1)
  }

  /**
   * The unconsumed release: the button is clicked if and only if it was
   * Pressed, becomes Hovered, and then the capture is released, so it ends
   * Normal instead when it held the capture and the pointer is not over it.
   */
  function Released(s: WinState, i: nat): (r: WinState)
    requires IsButtonOf(s, i)
    ensures ValidState(r) && r.tree == s.tree && r.focus == s.focus
    ensures var pressed := s.buttons[i].state == Pressed;
            var flags := if pressed then Clicked(s, i).buttons else s.buttons;
            r.capture == None
            && r.clicks == (if pressed then s.clicks + [Click(i, Clicked(s, i).buttons)] else s.clicks)
            && |r.buttons| == |s.buttons|
            && r.buttons[i] == flags[i].(capturing := s.buttons[i].capturing && s.capture != Some(i),
                                         state := if s.capture == Some(i) && !s.buttons[i].hovering
                                                  then Normal else Hovered)
            && (forall j :: 0 <= j < |r.buttons| && j != i && s.capture != Some(j) ==> r.buttons[j] == flags[j])
            && (forall j :: 0 <= j < |r.buttons| && j != i && s.capture == Some(j) ==>
                  r.buttons[j] == flags[j].(capturing := false,
                                            state := if s.buttons[j].hovering then Hovered else Normal))
  {
    CaptureReleased(ReleaseHandled(s, i))
  }

  /** The unconsumed press: the button marks itself capturing, takes the capture, and becomes Pressed. */
  function PressTaken(s: WinState, i: nat): (r: WinState)
    requires IsButtonOf(s, i)
    ensures ValidState(r) && r.tree == s.tree && r.capture == Some(i)
    ensures r.focus == s.focus && r.clicks == s.clicks
    ensures |r.buttons| == |s.buttons|
    ensures r.buttons[i] == s.buttons[i].(capturing := true, state := Pressed)
    ensures forall j :: 0 <= j < |r.buttons| && j != i && s.capture != Some(j) ==> r.buttons[j] == s.buttons[j]
    ensures forall j :: 0 <= j < |r.buttons| && j != i && s.capture == Some(j) ==>
              r.buttons[j] == s.buttons[j].(capturing := false,
                                            state := if s.buttons[j].hovering then Hovered else Normal)
  {
    var s2 := s.(buttons := s.buttons[i := s.buttons[i].(capturing := true)]);
    var s3 := CaptureSet(s2, i);
    s3.(buttons := s3.buttons[i := s3.buttons[i].(state := Pressed)])
  }

  /**
   * The unconsumed release, up to the release of the capture: clicked if and
   * only if the button was Pressed, then Hovered.
   */
  function ReleaseHandled(s: WinState, i: nat): (r: WinState)
    requires IsButtonOf(s, i)
    ensures ValidState(r) && r.tree == s.tree
    ensures r.capture == s.capture && r.focus == s.focus
    ensures r.clicks == if s.buttons[i].state == Pressed then s.clicks + [Click(i, Clicked(s, i).buttons)] else s.clicks
    ensures |r.buttons| == |s.buttons|
    ensures r.buttons[i].state == Hovered
    ensures forall j :: 0 <= j < |r.buttons| && j != i ==> r.buttons[j].state == s.buttons[j].state
    ensures forall j :: 0 <= j < |r.buttons| ==>
              r.buttons[j].capturing == s.buttons[j].capturing && r.buttons[j].hovering == s.buttons[j].hovering
    ensures var flags := if s.buttons[i].state == Pressed then Clicked(s, i).buttons else s.buttons;
            r.buttons[i] == flags[i].(state := Hovered)
            && forall j :: 0 <= j < |r.buttons| && j != i ==> r.buttons[j] == flags[j]
    ensures forall j :: 0 <= j < |r.buttons| ==>
              r.buttons[j].checked ==
                if s.buttons[i].state == Pressed then Clicked(s, i).buttons[j].checked else s.buttons[j].checked
  {
    var s3 := if s.buttons[i].state == Pressed then Clicked(s, i) else s;
    s3.(buttons := s3.buttons[i := s3.buttons[i].(state := Hovered)])
  }

  /**
   * A click on a radio in a container leaves it the only checked radio
   * among the container's direct children.
   */
  lemma ClickedRadioSole(s: WinState, i: nat)
    requires IsButtonOf(s, i) && InRadioGroup(s.tree, i) && RadiosExclusive(s.tree, s.buttons)
    ensures var r := Clicked(s, i);
            var p := s.tree[i].parent.value;
            r.buttons[i].checked
            && forall k :: 0 <= k < |s.tree[p].children| && CheckedRadio(s.tree, r.buttons, s.tree[p].children[k]) ==>
                 s.tree[p].children[k] == i
  {
    SetCheckedSoleRadio(s.tree, s.buttons, i);
  }

  // ---------------------------------------------------------------------
  // Invariants over any sequence of events
  // ---------------------------------------------------------------------

  /** What the window delivers to the buttons, plus the application's Button::SetChecked. */
  datatype Event =
    | MouseEnter(i: nat)
    | MouseLeave(i: nat)
    | MouseClick(i: nat, msg: Message, baseHandled: bool)
    | CaptureChanged
    | SetChecked(i: nat, checked: bool)

  /** The event addresses a button of the hierarchy (or is the window-wide capture change). */
  predicate Addressable(tree: seq<Node>, e: Event) {
    e.CaptureChanged? || (e.i < |tree| && IsButton(tree[e.i].kind))
  }

  function Step(s: WinState, e: Event): (r: WinState)
    requires ValidState(s) && Addressable(s.tree, e)
    ensures ValidState(r) && r.tree == s.tree
  {
    match e
    case MouseEnter(i) => MouseEntered(s, i)
    case MouseLeave(i) => MouseLeft(s, i)
    case MouseClick(i, msg, handled) => MouseClicked(s, i, msg, handled)
    case CaptureChanged => CaptureReleased(s)
    case SetChecked(i, v) => s.(buttons := SetCheckedIn(s.tree, s.buttons, i, v))
  }

  function Run(s: WinState, events: seq<Event>): (r: WinState)
    requires ValidState(s) && forall k :: 0 <= k < |events| ==> Addressable(s.tree, events[k])
    ensures ValidState(r) && r.tree == s.tree
    decreases |events|
  {
    if events == [] then s else Run(Step(s, events[0]), events[1..])
  }

  /**
   * A view holds the capture exactly when the window's capture slot names
   * it, and is Pressed exactly when it holds the capture: at most one
   * control believes it owns the capture, and none is Pressed without it.
   */
  predicate CaptureConsistent(s: WinState)
    requires ValidState(s)
  {
    forall j :: 0 <= j < |s.buttons| ==>
      (s.buttons[j].capturing <==> s.capture == Some(j))
      && (s.buttons[j].state == Pressed <==> s.buttons[j].capturing)
  }

  /** The state of a window whose buttons are all fresh: Normal, not hovered, not capturing, unchecked. */
  function Initial(tree: seq<Node>): (s: WinState)
    requires WellFormed(tree)
    ensures ValidState(s) && CaptureConsistent(s) && RadiosExclusive(s.tree, s.buttons)
  {
    WinState(tree, seq(|tree|, _ => ButtonState(Normal, false, false, false)), None, None, [])
  }

  /**
   * The capture slot and the buttons' capture flags agree, and every button
   * except the capture holder is Pressed exactly when it captures.
   */
  predicate ConsistentButHolder(s: WinState)
    requires ValidState(s)
  {
    forall j :: 0 <= j < |s.buttons| ==>
      (s.buttons[j].capturing <==> s.capture == Some(j))
      && (s.capture != Some(j) ==> (s.buttons[j].state == Pressed <==> s.buttons[j].capturing))
  }

  /** Releasing the capture restores full consistency, whatever state its holder was left in. */
  lemma CaptureReleasedKeepsConsistent(s: WinState)
    requires ValidState(s) && ConsistentButHolder(s)
    ensures CaptureConsistent(CaptureReleased(s))
  {
  }

  /** Exclusivity of radios depends only on the checked flags. */
  lemma ExclusiveSameFlags(tree: seq<Node>, b1: seq<ButtonState>, b2: seq<ButtonState>)
    requires WellFormed(tree) && |b1| == |tree| && |b2| == |tree|
    requires forall j :: 0 <= j < |tree| ==> b1[j].checked == b2[j].checked
    requires RadiosExclusive(tree, b1)
    ensures RadiosExclusive(tree, b2)
  {
  }

  /** Every event keeps the capture slot and the buttons' capture and press flags in agreement. */
  lemma {:induction false} StepKeepsConsistent(s: WinState, e: Event)
    requires ValidState(s) && Addressable(s.tree, e) && CaptureConsistent(s)
    ensures CaptureConsistent(Step(s, e))
  {
    match e
    case MouseEnter(i) =>
    case MouseLeave(i) =>
    case CaptureChanged =>
      CaptureReleasedKeepsConsistent(s);
    case SetChecked(i, v) =>
    case MouseClick(i, msg, handled) =>
      if !handled && msg != LButtonDown {
        var s1 := if msg == LButtonUp then ReleaseHandled(s, i) else s;
        assert ConsistentButHolder(s1);
        CaptureReleasedKeepsConsistent(s1);
      }
  }

  /** Every event keeps radios exclusive among the direct children of every view. */
  lemma {:induction false} StepKeepsExclusive(s: WinState, e: Event)
    requires ValidState(s) && Addressable(s.tree, e) && RadiosExclusive(s.tree, s.buttons)
    ensures RadiosExclusive(s.tree, Step(s, e).buttons)
  {
    match e
    case MouseEnter(i) =>
    case MouseLeave(i) =>
    case CaptureChanged =>
    case SetChecked(i, v) =>
      SetCheckedKeepsExclusive(s.tree, s.buttons, i, v);
    case MouseClick(i, msg, handled) =>
      var r := MouseClicked(s, i, msg, handled);
      if !handled && msg == LButtonUp && s.buttons[i].state == Pressed {
        var b := s.buttons[i];
        if s.tree[i].kind == Checkbox {
          SetCheckedKeepsExclusive(s.tree, s.buttons, i, !b.checked);
        } else if s.tree[i].kind == Radio && !b.checked {
          SetCheckedKeepsExclusive(s.tree, s.buttons, i, true);
        }
        ExclusiveSameFlags(s.tree, Clicked(s, i).buttons, r.buttons);
      } else {
        ExclusiveSameFlags(s.tree, s.buttons, r.buttons);
      }
  }

  /**
   * From a window state where both invariants hold, any sequence of events
   * leads to a state where they still hold.
   */
  lemma {:induction false} RunKeepsInvariants(s: WinState, events: seq<Event>)
    requires ValidState(s) && forall k :: 0 <= k < |events| ==> Addressable(s.tree, events[k])
    requires CaptureConsistent(s) && RadiosExclusive(s.tree, s.buttons)
    ensures CaptureConsistent(Run(s, events)) && RadiosExclusive(s.tree, Run(s, events).buttons)
    decreases |events|
  {
    if events != [] {
      StepKeepsConsistent(s, events[0]);
      StepKeepsExclusive(s, events[0]);
      var s' := Step(s, events[0]);
      assert forall k :: 0 <= k < |events[1..]| ==> events[1..][k] == events[k + 1];
      RunKeepsInvariants(s', events[1..]);
    }
  }

  /** Events that leave a press in progress alone: hover changes and SetChecked. */
  predicate KeepsPress(e: Event) {
    e.MouseEnter? || e.MouseLeave? || e.SetChecked?
  }

  /**
   * While button i holds the capture and is Pressed, hover events on any
   * button and SetChecked on any button keep it Pressed and holding the
   * capture, and emit nothing.
   */
  lemma {:induction false} PressSurvives(s: WinState, i: nat, events: seq<Event>)
    requires IsButtonOf(s, i)
    requires forall k :: 0 <= k < |events| ==> Addressable(s.tree, events[k]) && KeepsPress(events[k])
    requires s.capture == Some(i) && s.buttons[i].capturing && s.buttons[i].state == Pressed
    ensures var r := Run(s, events);
            r.capture == Some(i) && r.buttons[i].capturing && r.buttons[i].state == Pressed
            && r.clicks == s.clicks && r.focus == s.focus
    decreases |events|
  {
    if events != [] {
      var s' := Step(s, events[0]);
      assert forall k :: 0 <= k < |events[1..]| ==> events[1..][k] == events[k + 1];
      PressSurvives(s', i, events[1..]);
    }
  }

  /**
   * A press on button i, then any hover or SetChecked events, then a
   * release on i, neither consumed by the base handler: i is focused,
   * `on_click` is emitted exactly once, by i, with the flags OnClick leaves;
   * no capture remains, and i is Hovered or Normal as the pointer is over it
   * or not when released.
   */
  lemma PressThenRelease(s: WinState, i: nat, between: seq<Event>)
    requires IsButtonOf(s, i)
    requires forall k :: 0 <= k < |between| ==> Addressable(s.tree, between[k]) && KeepsPress(between[k])
    ensures var p := Run(MouseClicked(s, i, LButtonDown, false), between);
            var r := MouseClicked(p, i, LButtonUp, false);
            r.focus == Some(i) && r.capture == None
            && r.clicks == s.clicks + [Click(i, Clicked(p, i).buttons)]
            && r.buttons[i].state == (if p.buttons[i].hovering then Hovered else Normal)
            && !r.buttons[i].capturing
  {
    var d := MouseClicked(s, i, LButtonDown, false);
    PressSurvives(d, i, between);
  }

  /** A capture change while a button is Pressed leaves it Hovered or Normal and emits nothing. */
  lemma CaptureLossCancelsPress(s: WinState, i: nat)
    requires IsButtonOf(s, i) && CaptureConsistent(s) && s.buttons[i].state == Pressed
    ensures var r := CaptureReleased(s);
            r.clicks == s.clicks && !r.buttons[i].capturing
            && r.buttons[i].state == (if s.buttons[i].hovering then Hovered else Normal)
  {
  }

  // ---------------------------------------------------------------------
  // The window and its buttons, updated in place
  // ---------------------------------------------------------------------

  /**
   * A window's views and the fields of their ButtonImpl objects; the
   * window's capture and focus owners; the `on_click` emissions so far.
   */
  class Window {
    const tree: seq<Node>
    var buttons: seq<ButtonState>
    var capture: Option<nat>
    var focus: Option<nat>
    var clicks: seq<Click>

    function State(): WinState
      reads this
    {
      WinState(tree, buttons, capture, focus, clicks)
    }

    ghost predicate Valid()
      reads this
    {
      ValidState(State())
    }

    /** A window over a hierarchy whose buttons were just constructed. */
    constructor (tree: seq<Node>)
      requires WellFormed(tree)
      ensures Valid() && State() == Initial(tree)
    {
      this.tree := tree;
      buttons := seq(|tree|, _ => ButtonState(Normal, false, false, false));
      capture := None;
      focus := None;
      clicks := [];
    }

    /** ButtonImpl::IsChecked and the Button::IsChecked forwarder. */
    function IsChecked(i: nat): (checked: bool)
      reads this
      requires Valid() && i < |tree| && IsButton(tree[i].kind)
      ensures checked <==> State().buttons[i].checked
    {
      buttons[i].checked
    }

    method OnMouseEnter(i: nat)
      requires Valid() && i < |tree| && IsButton(tree[i].kind)
      modifies this
      ensures Valid() && State() == MouseEntered(old(State()), i)
    {
      buttons := buttons[i := buttons[i].(hovering := true)];
      if !buttons[i].capturing {
        buttons := buttons[i := buttons[i].(state := Hovered)];
      }
    }

    method OnMouseLeave(i: nat)
      requires Valid() && i < |tree| && IsButton(tree[i].kind)
      modifies this
      ensures Valid() && State() == MouseLeft(old(State()), i)
    {
      buttons := buttons[i := buttons[i].(hovering := false)];
      if !buttons[i].capturing {
        buttons := buttons[i := buttons[i].(state := Normal)];
      }
    }

    method OnCaptureLost(i: nat)
      requires Valid() && i < |tree| && IsButton(tree[i].kind)
      modifies this
      ensures Valid() && State() == CaptureLostBy(old(State()), i)
    {
      buttons := buttons[i := buttons[i].(capturing := false)];
      buttons := buttons[i := buttons[i].(state := if buttons[i].hovering then Hovered else Normal)];
    }

    /** The window's SetCapture, as assumed for window_win.cc. */
    method SetCapture(i: nat)
      requires Valid() && i < |tree| && IsButton(tree[i].kind)
      modifies this
      ensures Valid() && State() == CaptureSet(old(State()), i)
    {
      if capture.Some? && capture.value != i {
        var holder := capture.value;
        capture := None;
        OnCaptureLost(holder);
      }
      capture := Some(i);
    }

    /** The window's ReleaseCapture, as assumed for window_win.cc. */
    method ReleaseCapture()
      requires Valid()
      modifies this
      ensures Valid() && State() == CaptureReleased(old(State()))
    {
      if capture.Some? {
        var holder := capture.value;
        capture := None;
        OnCaptureLost(holder);
      }
    }

    /**
     * ButtonImpl::SetChecked and the Button::SetChecked forwarder. The
     * recursive calls all pass false, so they never reach the loop.
     */
    method SetChecked(i: nat, checked: bool)
      requires Valid() && i < |tree| && IsButton(tree[i].kind)
      modifies this
      ensures Valid() && State() == old(State()).(buttons := SetCheckedIn(tree, old(buttons), i, checked))
      decreases if checked then 1 else 0
    {
      if buttons[i].checked == checked {
        return;
      }
      buttons := buttons[i := buttons[i].(checked := checked)];
      // A checked radio in a container unchecks the other radios beside it.
      var parent := tree[i].parent;
      if checked && tree[i].kind == Radio && parent.Some? && tree[parent.value].kind == Container {
        var children := tree[parent.value].children;
        var k := 0;
        while k < |children|
          invariant 0 <= k <= |children|
          invariant Valid() && capture == old(capture) && focus == old(focus) && clicks == old(clicks)
          invariant forall j :: 0 <= j < |buttons| ==>
                      buttons[j] == if j == i then old(buttons)[i].(checked := true)
                                    else if SiblingRadio(tree, i, j) && j in children[..k]
                                    then old(buttons)[j].(checked := false)
                                    else old(buttons)[j]
        {
          var child := children[k];
          assert children[..k + 1] == children[..k] + [child];
          if child != i && tree[child].kind == Radio {
            SetChecked(child, false);
          }
          k := k + 1;
        }
        assert children[..k] == children;
      }
    }

    /** ButtonImpl::OnClick. */
    method OnClick(i: nat)
      requires Valid() && i < |tree| && IsButton(tree[i].kind)
      modifies this
      ensures Valid() && State() == Clicked(old(State()), i)
    {
      if tree[i].kind == Checkbox {
        SetChecked(i, !IsChecked(i));
      } else if tree[i].kind == Radio && !IsChecked(i) {
        SetChecked(i, true);
      }
      clicks := clicks + [Click(i, buttons)];
    }

    /** ButtonImpl::OnMouseClick; `baseHandled` is what ViewImpl::OnMouseClick returns. */
    method OnMouseClick(i: nat, msg: Message, baseHandled: bool) returns (consumed: bool)
      requires Valid() && i < |tree| && IsButton(tree[i].kind)
      modifies this
      ensures consumed
      ensures Valid() && State() == MouseClicked(old(State()), i, msg, baseHandled)
    {
      // A left press focuses the button even if the base handler then consumes it.
      if msg == LButtonDown {
        focus := Some(i);
      }
      if baseHandled {
        return true;
      }
      if msg == LButtonDown {
        buttons := buttons[i := buttons[i].(capturing := true)];
        SetCapture(i);
        buttons := buttons[i := buttons[i].(state := Pressed)];
      } else {
        if msg == LButtonUp {
          if buttons[i].state == Pressed {
            OnClick(i);
          }
          buttons := buttons[i := buttons[i].(state := Hovered)];
        }
        ReleaseCapture();
      }
      return true;
    }
  }
}
