/** The text-entry demo: typed keys build a cursor line, Return moves it
    into a short history of finished lines. */
module TextEntry {
  import opened Wrappers

  const MAX_LINES := 5

  const K_RETURN := 13
  const K_ESCAPE := 27

  datatype Entry = Entry(text: seq<string>, cursor: string)

  /** Characters the cursor line can hold: `!` through DEL, which
      includes the `?` standing in for everything else. */
  predicate Shown(c: char) {
    33 <= c as int <= 127
  }

  /** The history stays under `MAX_LINES` and the cursor holds only shown
      characters. */
  predicate Good(e: Entry) {
    |e.text| < MAX_LINES && forall i :: 0 <= i < |e.cursor| ==> Shown(e.cursor[i])
  }

  /** The `KEYDOWN` branch of the event loop; `None` is Escape, which
      quits. */
  function Key(e: Entry, key: int): (r: Option<Entry>)
    ensures key == K_ESCAPE <==> r.None?
    ensures key == K_RETURN ==> r.Some? && r.value.cursor == "" && |r.value.text| > 0
    ensures key == K_RETURN ==> r.value.text[|r.value.text| - 1] == e.cursor
    ensures key == K_RETURN && |e.text| + 1 < MAX_LINES ==> r.value.text == e.text + [e.cursor]
    ensures key == K_RETURN && |e.text| + 1 >= MAX_LINES ==> r.value.text == (e.text + [e.cursor])[1..]
    ensures key != K_ESCAPE && key != K_RETURN ==>
      r.Some? && r.value.text == e.text && |r.value.cursor| == |e.cursor| + 1 &&
      r.value.cursor[..|e.cursor|] == e.cursor
    ensures key != K_ESCAPE && key != K_RETURN && 33 <= key <= 127 ==> r.value.cursor[|e.cursor|] as int == key
    ensures key != K_ESCAPE && key != K_RETURN && !(33 <= key <= 127) ==> r.value.cursor[|e.cursor|] == '?'
  {
    if key == K_ESCAPE then None
    else if key == K_RETURN then
      var text := e.text + [e.cursor];
      Some(Entry(if |text| >= MAX_LINES then text[1..] else text, ""))
    else if key < 33 || key > 127 then Some(e.(cursor := e.cursor + "?"))
    else Some(e.(cursor := e.cursor + [key as char]))
  }

  /** Every key but Escape keeps the entry good: the history never reaches
      `MAX_LINES` lines. */
  lemma KeyKeepsGood(e: Entry, key: int)
    requires Good(e) && key != K_ESCAPE
    ensures Good(Key(e, key).value)
  {
  }

  /** A run of keys up to the first Escape. */
  function Keys(e: Entry, keys: seq<int>): (r: Entry)
    decreases |keys|
  {
    if |keys| == 0 then e
    else match Key(e, keys[0])
      case None => e
      case Some(e1) => Keys(e1, keys[1..])
  }

  /** From an empty start, any run of keys leaves at most `MAX_LINES - 1`
      finished lines. */
  lemma {:induction false} KeysKeepGood(e: Entry, keys: seq<int>)
    requires Good(e)
    ensures Good(Keys(e, keys))
    decreases |keys|
  {
    if |keys| > 0 && keys[0] != K_ESCAPE {
      KeyKeepsGood(e, keys[0]);
      KeysKeepGood(Key(e, keys[0]).value, keys[1..]);
    }
  }
}
