/** The conversation dialog: a framed box of nine decoration pieces laid
    out around a rectangle, a text area that keeps as many of the newest
    wrapped lines as fit its height, and a `> ` prompt edited key by key
    whose Return looks the typed keyword up in a fixed table. */
module Dialog {
  import opened Wrappers
  import opened PyStr
  import opened Grid
  import opened TextWrap

  // ------------------------------------------------ layout

  /** Where `setup_ui_batch` puts the nine pieces. */
  datatype Frame = Frame(topLeft: Rect, topMiddle: Rect, topRight: Rect,
                         midLeft: Rect, midRight: Rect,
                         botLeft: Rect, botMiddle: Rect, botRight: Rect,
                         avatar: Rect)

  /** `setup_ui_batch`: the middle bars are stretched to fill between the
      corners, then every piece is placed relative to its neighbours. */
  function Layout(rect: Rect, tl: Size, tm: Size, tr: Size, ml: Size, mr: Size,
                  bl: Size, bm: Size, br: Size, av: Size): (f: Frame)
    ensures f.topLeft.x == rect.x && f.topLeft.y == rect.y
    ensures f.topRight.x + f.topRight.width == rect.x + rect.width
    ensures f.botLeft.y + f.botLeft.height == rect.y + rect.height
    ensures f.topMiddle.width == rect.width - tl.w - tr.w && f.botMiddle.width == f.topMiddle.width
    ensures f.midLeft.height == rect.height - tl.h - bl.h && f.midRight.height == f.midLeft.height
    ensures tl.w + tr.w == bl.w + br.w ==> f.botRight.x + f.botRight.width == rect.x + rect.width
    ensures tl.h == tr.h ==> f.midRight.y == f.midLeft.y
    ensures f.avatar.x == f.topMiddle.x && f.avatar.y == f.midLeft.y
  {
    var middleWidth := rect.width - tl.w - tr.w;
    var middleHeight := rect.height - tl.h - bl.h;
    var topLeft := Rect(rect.x, rect.y, tl.w, tl.h);
    var topMiddle := Rect(topLeft.x + topLeft.width, rect.y, middleWidth, tm.h);
    var topRight := Rect(topMiddle.x + topMiddle.width, rect.y, tr.w, tr.h);
    var midLeft := Rect(rect.x, topLeft.y + topLeft.height, ml.w, middleHeight);
    var midRight := Rect(topRight.x, topRight.y + topRight.height, mr.w, middleHeight);
    var botLeft := Rect(rect.x, midLeft.y + midLeft.height, bl.w, bl.h);
    var botMiddle := Rect(botLeft.x + botLeft.width, botLeft.y, middleWidth, bm.h);
    var botRight := Rect(botMiddle.x + botMiddle.width, botLeft.y, br.w, br.h);
    var avatar := Rect(topLeft.x + topLeft.width, topLeft.y + topLeft.height, av.w, av.h);
    Frame(topLeft, topMiddle, topRight, midLeft, midRight, botLeft, botMiddle, botRight, avatar)
  }

  /** The text area: right of the avatar, as wide as the top bar minus the
      avatar, two font heights shorter than the side bars. */
  function TextRect(f: Frame, fontHeight: int): Rect {
    Rect(f.avatar.x + f.avatar.width, f.avatar.y, f.topMiddle.width - f.avatar.width,
         f.midLeft.height - fontHeight * 2)
  }

  /** The prompt line: one font height below the text area. */
  function InputRect(f: Frame, fontHeight: int): Rect {
    var t := TextRect(f, fontHeight);
    Rect(t.x, t.y + t.height + fontHeight, t.width, fontHeight)
  }

  /** The text area ends where the top-right corner begins, and the prompt
      line ends exactly where the bottom bar begins. */
  lemma TextAreaFits(rect: Rect, tl: Size, tm: Size, tr: Size, ml: Size, mr: Size,
                     bl: Size, bm: Size, br: Size, av: Size, fontHeight: int)
    ensures var f := Layout(rect, tl, tm, tr, ml, mr, bl, bm, br, av);
      && TextRect(f, fontHeight).x + TextRect(f, fontHeight).width == f.topRight.x
      && InputRect(f, fontHeight).y + InputRect(f, fontHeight).height == f.botLeft.y
  {
  }

  // ------------------------------------------------ text and prompt

  /** The box's metrics: the font's width function, the width of a space,
      the text area's width and height, and the font height. */
  datatype Box = Box(width: string -> nat, space: nat, textWidth: int, textHeight: nat, fontHeight: nat)

  datatype Dialog = Dialog(text: seq<string>, input: string)

  const PROMPT := "> "

  /** `DIALOG_TLK` */
  const TALK: map<string, string> := map[
    "NAME" := "Call me \"Tiny Cthulhu.\"",
    "JOB" := "I eat SOULS.",
    "SOULS" := "If I eat enough of them, " + "I'll grow up to be big and strong!",
    "BYE" := "Oh, you can't leave now..."
  ]

  const K_BACKSPACE := 8
  const K_RETURN := 13

  /** `add_text` of the dialog: wrap to the text area's width, then drop
      the oldest lines until the rest fit its height. */
  function AddText(b: Box, text: seq<string>, line: string): (r: Result<seq<string>, WrapError>)
    ensures r.Success? ==> |r.value| * b.fontHeight <= b.textHeight
    ensures r.Failure? <==> WrapVariable(b.width, b.space, b.textWidth, line).Failure?
    ensures r.Success? ==>
      var all := text + WrapVariable(b.width, b.space, b.textWidth, line).value;
      |r.value| <= |all| && r.value == all[|all| - |r.value|..]
  {
    var lines :- WrapVariable(b.width, b.space, b.textWidth, line);
    Success(TrimToHeight(text + lines, b.fontHeight, b.textHeight))
  }

  /** The reply to a question: the table entry, or an admission of
      ignorance. */
  function Answer(q: string): (a: string)
    ensures q in TALK ==> a == TALK[q]
    ensures q !in TALK ==> a == "I don't know anything about " + q + "."
  {
    if q in TALK then TALK[q] else "I don't know anything about " + q + "."
  }

  /** `input[2:]`: what was typed after the prompt. */
  function Question(input: string): (q: string)
    ensures |input| >= 2 ==> input == input[..2] + q
  {
    if |input| >= 2 then input[2..] else ""
  }

  /** `chr(key)` where Python accepts it and Dafny can hold the result. */
  predicate IsChar(key: int) {
    0 <= key < 0xD800 || 0xE000 <= key < 0x11_0000
  }

  /** `Dialog.keydown`; a `Failure` is the `IndexError` of wrapping a line
      that has no words. Every key but Return edits the prompt line alone;
      Return moves the typed line and its answer into the text area and
      starts a fresh prompt. */
  function Keydown(b: Box, d: Dialog, key: int): (r: Result<Dialog, WrapError>)
    ensures key != K_RETURN ==> r.Success? && r.value.text == d.text && Edited(d.input, key, r.value.input)
    ensures key == K_RETURN ==> Submitted(b, d, r)
  {
    if key == K_RETURN then Submit(b, d) else Success(Edit(d, key))
  }

  /** What a key other than Return does to the prompt line `input`, giving
      `s`. */
  predicate Edited(input: string, key: int, s: string) {
    // Backspace takes back the last character typed, never the prompt's
    && (key == K_BACKSPACE && |input| > 2 ==> input == s + [input[|input| - 1]])
    && (key == K_BACKSPACE && |input| <= 2 ==> s == input)
    // a letter key types the capital letter
    && ('a' as int <= key <= 'z' as int ==>
          && |s| == |input| + 1 && s[..|input|] == input
          && 'A' <= s[|input|] <= 'Z' && s[|input|] as int + 32 == key)
    // any other key types its own character, if it is one
    && (key != K_BACKSPACE && !('a' as int <= key <= 'z' as int) ==>
          (IsChar(key) ==> s == input + [key as char]) && (!IsChar(key) ==> s == input))
  }

  /** What Return does to `d`, giving `r`. */
  predicate Submitted(b: Box, d: Dialog, r: Result<Dialog, WrapError>) {
    var typed := WrapVariable(b.width, b.space, b.textWidth, d.input);
    var answer := WrapVariable(b.width, b.space, b.textWidth, Answer(Question(d.input)));
    // it fails exactly when the typed line or the answer has no words
    && (r.Success? <==> typed.Success? && answer.Success?)
    // and otherwise shows the newest lines of the old text, the typed line
    // and the answer that fit, under a fresh prompt
    && (r.Success? ==>
          var all := d.text + typed.value + answer.value;
          && r.value.input == PROMPT && Fits(b, r.value.text)
          && |r.value.text| <= |all| && r.value.text == all[|all| - |r.value.text|..])
  }

  /** The Return branch of `Dialog.keydown`. */
  function Submit(b: Box, d: Dialog): (r: Result<Dialog, WrapError>)
    ensures Submitted(b, d, r)
  {
    var t :- AddText(b, d.text, d.input);
    var u :- AddText(b, t, Answer(Question(d.input)));
    SuffixOfSuffix(d.text, WrapVariable(b.width, b.space, b.textWidth, d.input).value,
                   WrapVariable(b.width, b.space, b.textWidth, Answer(Question(d.input))).value, t, u);
    Success(Dialog(u, PROMPT))
  }

  /** Every other key of `Dialog.keydown`: it edits the prompt line. */
  function Edit(d: Dialog, key: int): (r: Dialog)
    requires key != K_RETURN
    ensures r.text == d.text && Edited(d.input, key, r.input)
  {
    if key == K_BACKSPACE then
      if |d.input| > 2 then d.(input := d.input[..|d.input| - 1]) else d
    else if 'a' as int <= key <= 'z' as int then
      d.(input := d.input + [(key - 32) as char])
    else if IsChar(key) then
      d.(input := d.input + [key as char])
    else
      d
  }

  /** The newest lines of the newest lines are the newest lines of the
      whole. */
  lemma SuffixOfSuffix<T>(text: seq<T>, more: seq<T>, most: seq<T>, t: seq<T>, u: seq<T>)
    requires |t| <= |text + more| && t == (text + more)[|text + more| - |t|..]
    requires |u| <= |t + most| && u == (t + most)[|t + most| - |u|..]
    ensures |u| <= |text + more + most| && u == (text + more + most)[|text + more + most| - |u|..]
  {
    var all := text + more + most;
    assert t + most == all[|all| - |t + most|..];
  }

  /** The prompt is intact. */
  predicate Prompted(input: string) {
    |input| >= 2 && input[..2] == PROMPT
  }

  /** The text area holds no more lines than fit its height. */
  predicate Fits(b: Box, text: seq<string>) {
    |text| * b.fontHeight <= b.textHeight
  }

  /** Every reply starts with a visible character. */
  lemma AnswerHasWords(q: string)
    ensures |Answer(q)| > 0 && !IsSpace(Answer(q)[0])
  {
    if q in TALK {
      assert q == "NAME" || q == "JOB" || q == "SOULS" || q == "BYE";
      if q == "NAME" {
        assert Answer(q)[0] == 'C';
      } else if q == "BYE" {
        assert Answer(q)[0] == 'O';
      } else if q == "JOB" {
        assert Answer(q)[0] == 'I';
      } else {
        assert q == "SOULS";
        assert "SOULS" != "BYE";
        assert Answer(q)[0] == 'I';
      }
    } else {
      assert Answer(q)[0] == 'I';
    }
  }

  /** From a dialog with its prompt intact and its text fitting, every key
      succeeds, keeps the prompt (Backspace never eats into it) and keeps
      the text fitting. */
  lemma KeydownKeepsPrompt(b: Box, d: Dialog, key: int)
    requires Prompted(d.input) && Fits(b, d.text)
    ensures Keydown(b, d, key).Success?
    ensures Prompted(Keydown(b, d, key).value.input)
    ensures Fits(b, Keydown(b, d, key).value.text)
  {
    if key == K_RETURN {
      assert d.input[0] == '>';
      AnswerHasWords(Question(d.input));
    } else {
      var s := Edit(d, key).input;
      if key == K_BACKSPACE && |d.input| > 2 {
        assert s[..2] == (s + [d.input[|d.input| - 1]])[..2];
      } else if key != K_BACKSPACE {
        assert s[..2] == (d.input + s[|d.input|..])[..2];
      }
    }
  }

  /** A run of keys, stopping at the first failure. */
  function Type(b: Box, d: Dialog, keys: seq<int>): Result<Dialog, WrapError>
    decreases |keys|
  {
    if |keys| == 0 then Success(d)
    else
      var d1 :- Keydown(b, d, keys[0]);
      Type(b, d1, keys[1..])
  }

  /** Typing `name` shows `> NAME`, and Return then asks the table for
      `NAME`. */
  lemma TypeName(b: Box, text: seq<string>)
    ensures Type(b, Dialog(text, PROMPT), [110, 97, 109, 101]) == Success(Dialog(text, "> NAME"))
    ensures Answer(Question("> NAME")) == TALK["NAME"]
  {
    var d1 := Dialog(text, "> N");
    var d2 := Dialog(text, "> NA");
    var d3 := Dialog(text, "> NAM");
    assert PROMPT + [(110 - 32) as char] == d1.input;
    assert d1.input + [(97 - 32) as char] == d2.input;
    assert d2.input + [(109 - 32) as char] == d3.input;
    assert d3.input + [(101 - 32) as char] == "> NAME";
    assert Keydown(b, Dialog(text, PROMPT), 110) == Success(d1);
    assert Keydown(b, d1, 97) == Success(d2);
    assert Keydown(b, d2, 109) == Success(d3);
    assert Keydown(b, d3, 101) == Success(Dialog(text, "> NAME"));
    assert Question("> NAME") == "NAME";
  }
}
