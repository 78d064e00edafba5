/** The UI widgets: a button with pressed and hover flags, a label whose
    text is centred in its image, and a spinner of two arrow buttons around
    a label that cycles through a list of values. Text metrics come from
    an abstract `measure` function; a click handler is reported as a
    `fired` flag. */
module Widgets {
  import opened Wrappers
  import opened Grid
  import opened Arith

  /** Where text of size `t` is drawn inside a box of size `box`:
      `((w - tw) // 2, (h - th) // 2)`. */
  function CentreOffset(box: Size, t: Size): (c: Cell)
    ensures 2 * c.x <= box.w - t.w < 2 * c.x + 2
    ensures 2 * c.y <= box.h - t.h < 2 * c.y + 2
  {
    Cell((box.w - t.w) / 2, (box.h - t.h) / 2)
  }

  /** Centring is fair: the margins on either side differ by at most one
      pixel, the extra pixel going right (or down). */
  lemma CentreMargins(box: Size, t: Size)
    ensures var c := CentreOffset(box, t);
      && (box.w - t.w - c.x == c.x || box.w - t.w - c.x == c.x + 1)
      && (box.h - t.h - c.y == c.y || box.h - t.h - c.y == c.y + 1)
  {
  }

  // ------------------------------------------------ button

  datatype Button = Button(rect: Rect, text: string, textRect: Rect, selected: bool, intersected: bool, hasHandler: bool)

  /** `Button.__init__`: the button takes its image's size; the text is
      centred in it; neither flag is set. */
  function NewButton(x: int, y: int, image: Size, text: string, measure: string -> Size, hasHandler: bool): (b: Button)
    ensures b.rect == Rect(x, y, image.w, image.h) && b.text == text
    ensures b.textRect.width == measure(text).w && b.textRect.height == measure(text).h
    ensures Cell(b.textRect.x, b.textRect.y) == CentreOffset(image, measure(text))
    ensures !b.selected && !b.intersected
  {
    var t := measure(text);
    var c := CentreOffset(image, t);
    Button(Rect(x, y, image.w, image.h), text, Rect(c.x, c.y, t.w, t.h), false, false, hasHandler)
  }

  /** `on_mouse_move`: hover follows the pointer; nothing else changes. */
  function ButtonMove(b: Button, x: int, y: int): (r: Button)
    ensures r.intersected <==> Contains(b.rect, x, y)
    ensures r.(intersected := b.intersected) == b
  {
    b.(intersected := Contains(b.rect, x, y))
  }

  /** `on_mouse_press`: inside, the button is selected and its handler (if
      any) fires; outside, nothing happens. */
  function ButtonPress(b: Button, x: int, y: int): (r: (Button, bool))
    ensures !Contains(b.rect, x, y) ==> r == (b, false)
    ensures Contains(b.rect, x, y) ==> r.0 == b.(selected := true) && (r.1 <==> b.hasHandler)
  {
    if !Contains(b.rect, x, y) then (b, false) else (b.(selected := true), b.hasHandler)
  }

  /** `on_mouse_release`: inside, the button is deselected; outside, it
      stays as it was. */
  function ButtonRelease(b: Button, x: int, y: int): (r: Button)
    ensures Contains(b.rect, x, y) ==> r == b.(selected := false)
    ensures !Contains(b.rect, x, y) ==> r == b
  {
    if !Contains(b.rect, x, y) then b else b.(selected := false)
  }

  /** Pressing and releasing at the same point inside leaves the button as
      it was, unselected, having fired once if it has a handler; a press
      and release outside change nothing. */
  lemma ClickRoundTrip(b: Button, x: int, y: int)
    requires !b.selected
    ensures ButtonRelease(ButtonPress(b, x, y).0, x, y) == b
    ensures ButtonPress(b, x, y).1 <==> Contains(b.rect, x, y) && b.hasHandler
  {
  }

  /** A press inside followed by a release elsewhere leaves the button
      stuck selected until the next release inside. */
  lemma ReleaseOutsideStaysSelected(b: Button, x: int, y: int, x2: int, y2: int)
    requires Contains(b.rect, x, y) && !Contains(b.rect, x2, y2)
    ensures ButtonRelease(ButtonPress(b, x, y).0, x2, y2).selected
  {
  }

  // ------------------------------------------------ label

  datatype Label = Label(rect: Rect, text: string, textRect: Rect)

  /** `Label.set_text`: the new text, measured and centred in the label's
      box. */
  function SetText(l: Label, text: string, measure: string -> Size): (r: Label)
    ensures r.rect == l.rect && r.text == text
    ensures r.textRect.width == measure(text).w && r.textRect.height == measure(text).h
    ensures Cell(r.textRect.x, r.textRect.y) == CentreOffset(Size(l.rect.width, l.rect.height), measure(text))
  {
    var t := measure(text);
    Label(l.rect, text, Rect((l.rect.width - t.w) / 2, (l.rect.height - t.h) / 2, t.w, t.h))
  }

  /** Setting the same text twice is the same as setting it once. */
  lemma SetTextIdempotent(l: Label, text: string, measure: string -> Size)
    ensures SetText(SetText(l, text, measure), text, measure) == SetText(l, text, measure)
  {
  }

  // ------------------------------------------------ spinner

  datatype Spinner = Spinner(rect: Rect, values: seq<string>, current: int, caption: Label,
                             decrease: Rect, increase: Rect)

  /** The index names one of the values. */
  predicate InRange(s: Spinner) {
    0 <= s.current < |s.values|
  }

  /** The spinner shows a valid index, and its label shows that value. */
  predicate Good(s: Spinner) {
    InRange(s) && s.caption.text == s.values[s.current]
  }

  /** `Spinner.__init__`: left arrow, label and right arrow side by side,
      the arrows centred vertically against the label; `None` is the
      `IndexError` of an empty value list. */
  function NewSpinner(x: int, y: int, values: seq<string>, measure: string -> Size,
                      left: Size, middle: Size, right: Size): (r: Option<Spinner>)
    ensures r.None? <==> |values| == 0
    ensures r.Some? ==> Good(r.value) && r.value.current == 0
    ensures r.Some? ==> r.value.rect.width == left.w + middle.w + right.w
    ensures r.Some? ==> r.value.rect.height >= left.h && r.value.rect.height >= middle.h && r.value.rect.height >= right.h
    ensures r.Some? ==> r.value.rect.height in {left.h, middle.h, right.h}
    ensures r.Some? ==> r.value.decrease.x == x && r.value.increase.x == x + left.w + middle.w
    ensures r.Some? ==> r.value.caption.rect == Rect(x + left.w, y, middle.w, middle.h)
  {
    if |values| == 0 then None
    else
      var lab := SetText(Label(Rect(x + left.w, y, middle.w, middle.h), values[0], Rect(0, 0, 0, 0)), values[0], measure);
      var dec := Rect(x, y + (middle.h - left.h) / 2, left.w, left.h);
      var inc := Rect(x + left.w + middle.w, y + (middle.h - right.h) / 2, right.w, right.h);
      var height := Max(left.h, Max(middle.h, right.h));
      Some(Spinner(Rect(x, y, left.w + middle.w + right.w, height), values, 0, lab, dec, inc))
  }

  function Max(a: int, b: int): (m: int)
    ensures m >= a && m >= b && (m == a || m == b)
  {
    if a >= b then a else b
  }

  /** `Spinner.decrease`: one back, from the first value to the last. */
  function Decrease(s: Spinner, measure: string -> Size): (r: Spinner)
    requires InRange(s)
    ensures Good(r) && r.values == s.values && r.rect == s.rect
    ensures r.current == (s.current - 1) % |s.values|
    ensures s.current == 0 ==> r.current == |s.values| - 1
  {
    var c := if s.current - 1 < 0 then |s.values| - 1 else s.current - 1;
    assert c == (s.current - 1) % |s.values| by {
      if s.current - 1 < 0 {
        DivModUnique(s.current - 1, |s.values|, -1, |s.values| - 1);
      } else {
        DivModUnique(s.current - 1, |s.values|, 0, s.current - 1);
      }
    }
    s.(current := c, caption := SetText(s.caption, s.values[c], measure))
  }

  /** `Spinner.increase`: one forward, from the last value to the first. */
  function Increase(s: Spinner, measure: string -> Size): (r: Spinner)
    requires InRange(s)
    ensures Good(r) && r.values == s.values && r.rect == s.rect
    ensures r.current == (s.current + 1) % |s.values|
    ensures s.current == |s.values| - 1 ==> r.current == 0
  {
    var c := if s.current + 1 >= |s.values| then 0 else s.current + 1;
    assert c == (s.current + 1) % |s.values| by {
      if s.current + 1 >= |s.values| {
        DivModUnique(s.current + 1, |s.values|, 1, 0);
      } else {
        DivModUnique(s.current + 1, |s.values|, 0, s.current + 1);
      }
    }
    s.(current := c, caption := SetText(s.caption, s.values[c], measure))
  }

  /** Increase and decrease undo each other. */
  lemma IncreaseDecrease(s: Spinner, measure: string -> Size)
    requires InRange(s)
    ensures Decrease(Increase(s, measure), measure).current == s.current
    ensures Increase(Decrease(s, measure), measure).current == s.current
  {
  }

  /** `Spinner.on_mouse_press`: a press outside the spinner does nothing;
      inside, each arrow under the point fires its step. Returns the
      spinner after both arrows have been offered the press. */
  function SpinnerPress(s: Spinner, x: int, y: int, measure: string -> Size): (r: Spinner)
    requires InRange(s)
    ensures InRange(r) && r.values == s.values
    ensures Good(s) ==> Good(r)
    ensures !Contains(s.rect, x, y) ==> r == s
    ensures Contains(s.rect, x, y) && !Contains(s.decrease, x, y) && !Contains(s.increase, x, y) ==> r == s
    ensures Contains(s.rect, x, y) && Contains(s.decrease, x, y) && !Contains(s.increase, x, y) ==>
      r.current == (s.current - 1) % |s.values|
    ensures Contains(s.rect, x, y) && !Contains(s.decrease, x, y) && Contains(s.increase, x, y) ==>
      r.current == (s.current + 1) % |s.values|
  {
    if !Contains(s.rect, x, y) then s
    else
      var s1 := if Contains(s.decrease, x, y) then Decrease(s, measure) else s;
      if Contains(s.increase, x, y) then Increase(s1, measure) else s1
  }

  /** With arrows of non-negative size, the two arrows never overlap, so a
      press moves the value by at most one step either way. */
  lemma PressOneStep(s: Spinner, x: int, y: int, measure: string -> Size)
    requires InRange(s)
    requires s.decrease.width >= 0 && s.increase.x >= s.decrease.x + s.decrease.width
    ensures var r := SpinnerPress(s, x, y, measure);
      r.current == s.current || r.current == (s.current + 1) % |s.values| || r.current == (s.current - 1) % |s.values|
  {
  }

  /** Fresh spinners satisfy the arrows' side-by-side layout whenever the
      label's width is not negative. */
  lemma NewSpinnerArrowsApart(x: int, y: int, values: seq<string>, measure: string -> Size,
                              left: Size, middle: Size, right: Size)
    requires |values| > 0 && left.w >= 0 && middle.w >= 0
    ensures var s := NewSpinner(x, y, values, measure, left, middle, right).value;
      s.decrease.width >= 0 && s.increase.x >= s.decrease.x + s.decrease.width
  {
  }
}
