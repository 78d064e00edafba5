/** The fancy-text view: each word of an added line may carry inline tags
    `{bg=#hex}…{/bg}`, `{color=#hex}…{/color}`, `{o}…{/o}` and `{s}…{/s}`,
    which are stripped off and turned into the word's colours and style;
    drawing flows the words left to right, starting a new line whenever
    the next word would overflow the view's width.

    Each tag is recognised by a regular expression of the shape
    `(.*)OPEN(.*)CLOSE(.*)` anchored at the start of the word. A word holds
    no newline (it comes from `str.split()`), so `.` matches every
    character and the expression must cover the whole word; the
    backtracking matcher prefers the longest first group, then the longest
    middle group. `TagMatch` computes that match and `TagMatchSpec` proves
    it is the preferred one among all decompositions of the word. */
module FancyText {
  import opened Wrappers
  import opened PyStr
  import opened Grid

  // ------------------------------------------------ tags

  /** A tag pair `{name}…{/name}`, or `{name=#hex}…{/name}` when it
      carries a colour. */
  datatype Tag = Tag(name: string, coloured: bool)

  const BG_TAG := Tag("bg", true)
  const COLOR_TAG := Tag("color", true)
  const OBLIQUE_TAG := Tag("o", false)
  const STRONG_TAG := Tag("s", false)

  /** `[A-Fa-f0-9]` */
  predicate IsHex(c: char) {
    ('0' <= c <= '9') || ('a' <= c <= 'f') || ('A' <= c <= 'F')
  }

  /** What a tag's argument group can hold: `#` and at least one hex digit
      for a colour tag, nothing for a style tag. */
  predicate ValidArg(t: Tag, arg: string) {
    if t.coloured then |arg| >= 2 && arg[0] == '#' && forall i :: 1 <= i < |arg| ==> IsHex(arg[i])
    else arg == ""
  }

  /** The opening tag with its argument. */
  function TagText(t: Tag, arg: string): string {
    if t.coloured then "{" + t.name + "=" + arg + "}" else "{" + t.name + "}"
  }

  /** The fixed text every opening tag starts with. */
  function Opener(t: Tag): string {
    if t.coloured then "{" + t.name + "=#" else "{" + t.name + "}"
  }

  function Closer(t: Tag): string {
    "{/" + t.name + "}"
  }

  /** `p` occurs in `w` at index `i`. */
  predicate At(w: string, i: nat, p: string) {
    i + |p| <= |w| && w[i..i + |p|] == p
  }

  /** A reading of the word as `before OPEN inside CLOSE after`: the
      opening tag starts at `open` and carries `arg`, the closing tag
      starts at `close`. The groups are the slices between. */
  datatype Match = Match(open: nat, arg: string, close: nat)

  /** Where the middle group starts. */
  function InsideStart(t: Tag, m: Match): nat {
    m.open + |TagText(t, m.arg)|
  }

  /** `m` is one way of reading `w` as `before OPEN inside CLOSE after`. */
  predicate IsMatch(w: string, t: Tag, m: Match) {
    && ValidArg(t, m.arg)
    && At(w, m.open, TagText(t, m.arg))
    && InsideStart(t, m) <= m.close
    && At(w, m.close, Closer(t))
  }

  /** The regular expression matches `w` at all. */
  ghost predicate Tagged(w: string, t: Tag) {
    exists m :: IsMatch(w, t, m)
  }

  /** The backtracking matcher's preference: a longer first group wins,
      then a longer middle group. */
  predicate Preferred(m: Match, n: Match) {
    m.open < n.open || (m.open == n.open && m.close <= n.close)
  }

  /** The word with the tag pair removed: `before + inside + after`. */
  function Stripped(w: string, t: Tag, m: Match): string
    requires IsMatch(w, t, m)
  {
    w[..m.open] + w[InsideStart(t, m)..m.close] + w[m.close + |Closer(t)|..]
  }

  lemma AtChar(w: string, i: nat, p: string, k: nat)
    requires At(w, i, p) && k < |p|
    ensures w[i + k] == p[k]
  {
    assert w[i..i + |p|][k] == w[i + k];
  }

  lemma AtFirstTwo(w: string, i: nat, p: string)
    requires At(w, i, p) && |p| >= 2
    ensures w[i] == p[0] && w[i + 1] == p[1]
  {
    AtChar(w, i, p, 0);
    AtChar(w, i, p, 1);
  }

  lemma AtSplit(w: string, i: nat, p: string, q: string)
    requires At(w, i, p + q)
    ensures At(w, i, p) && At(w, i + |p|, q)
  {
    var s := w[i..i + |p| + |q|];
    assert w[i..i + |p|] == s[..|p|];
    assert w[i + |p|..i + |p| + |q|] == s[|p|..];
  }

  lemma AtJoin(w: string, i: nat, p: string, q: string)
    requires At(w, i, p) && At(w, i + |p|, q)
    ensures At(w, i, p + q)
  {
    assert w[i..i + |p| + |q|] == w[i..i + |p|] + w[i + |p|..i + |p| + |q|];
  }

  /** The groups of a match put the word back together with the two tags. */
  lemma MatchParts(w: string, t: Tag, m: Match)
    requires IsMatch(w, t, m)
    ensures w == w[..m.open] + TagText(t, m.arg) + w[InsideStart(t, m)..m.close] + Closer(t) + w[m.close + |Closer(t)|..]
  {
    var e := InsideStart(t, m);
    var c := m.close + |Closer(t)|;
    assert w == w[..m.open] + w[m.open..e] + w[e..m.close] + w[m.close..c] + w[c..];
  }

  lemma TagTextOpener(t: Tag, arg: string)
    requires ValidArg(t, arg)
    ensures t.coloured ==> TagText(t, arg) == Opener(t) + arg[1..] + "}"
    ensures !t.coloured ==> TagText(t, arg) == Opener(t)
  {
    if t.coloured {
      assert arg == "#" + arg[1..];
      assert TagText(t, arg) == Opener(t) + arg[1..] + "}";
    }
  }

  /** An opening tag begins with the fixed text of its kind. */
  lemma AtOpener(w: string, i: nat, t: Tag, arg: string)
    requires ValidArg(t, arg) && At(w, i, TagText(t, arg))
    ensures At(w, i, Opener(t))
  {
    TagTextOpener(t, arg);
    if t.coloured {
      AtSplit(w, i, Opener(t) + arg[1..], "}");
      AtSplit(w, i, Opener(t), arg[1..]);
    }
  }

  // ------------------------------------------------ matching

  /** Length of the run of hex digits starting at `k`. */
  function HexRun(w: string, k: nat): (n: nat)
    requires k <= |w|
    ensures k + n <= |w|
    ensures forall i :: k <= i < k + n ==> IsHex(w[i])
    ensures k + n < |w| ==> !IsHex(w[k + n])
    decreases |w| - k
  {
    if k < |w| && IsHex(w[k]) then 1 + HexRun(w, k + 1) else 0
  }

  lemma {:induction false} HexRunStops(w: string, k: nat, n: nat)
    requires k + n < |w|
    requires forall i :: k <= i < k + n ==> IsHex(w[i])
    requires !IsHex(w[k + n])
    ensures HexRun(w, k) == n
    decreases n
  {
    if n > 0 {
      HexRunStops(w, k + 1, n - 1);
    }
  }

  /** An opening tag found in the word: its argument and where it ends. */
  datatype Open = Open(arg: string, end: nat)

  /** A colour opener at `i` followed by `n` hex digits and `}` is a whole
      opening tag. */
  lemma ColourTag(w: string, i: nat, t: Tag, n: nat)
    requires t.coloured && At(w, i, Opener(t))
    requires n > 0 && i + |Opener(t)| + n < |w| && w[i + |Opener(t)| + n] == '}'
    requires forall j :: i + |Opener(t)| <= j < i + |Opener(t)| + n ==> IsHex(w[j])
    ensures var k := i + |Opener(t)|;
      var arg := "#" + w[k..k + n];
      ValidArg(t, arg) && At(w, i, TagText(t, arg)) && |TagText(t, arg)| == |Opener(t)| + n + 1
  {
    var k := i + |Opener(t)|;
    var arg := "#" + w[k..k + n];
    assert arg[1..] == w[k..k + n];
    TagTextOpener(t, arg);
    assert At(w, k, w[k..k + n]);
    assert w[k + n..k + n + 1] == "}";
    AtJoin(w, i, Opener(t), w[k..k + n]);
    AtJoin(w, i, Opener(t) + w[k..k + n], "}");
  }

  /** The opening tag at index `i`, if there is one. The hex digits of a
      colour run up to the first non-hex character, which must be `}`. */
  function OpenAt(w: string, i: nat, t: Tag): (r: Option<Open>)
    ensures r.Some? ==> ValidArg(t, r.value.arg) && r.value.end == i + |TagText(t, r.value.arg)|
    ensures r.Some? ==> At(w, i, TagText(t, r.value.arg))
  {
    var p := Opener(t);
    if !At(w, i, p) then None
    else if !t.coloured then Some(Open("", i + |p|))
    else
      var k := i + |p|;
      var n := HexRun(w, k);
      if n > 0 && k + n < |w| && w[k + n] == '}' then
        ColourTag(w, i, t, n);
        Some(Open("#" + w[k..k + n], k + n + 1))
      else None
  }

  /** Every opening tag present at `i` is the one `OpenAt` finds. */
  lemma OpenAtComplete(w: string, i: nat, t: Tag, arg: string)
    requires ValidArg(t, arg) && At(w, i, TagText(t, arg))
    ensures OpenAt(w, i, t) == Some(Open(arg, i + |TagText(t, arg)|))
  {
    AtOpener(w, i, t, arg);
    if t.coloured {
      TagTextOpener(t, arg);
      var p := Opener(t);
      var k := i + |p|;
      var n := |arg| - 1;
      AtSplit(w, i, p + arg[1..], "}");
      AtSplit(w, i, p, arg[1..]);
      forall j | k <= j < k + n
        ensures IsHex(w[j])
      {
        AtChar(w, k, arg[1..], j - k);
      }
      AtChar(w, k + n, "}", 0);
      HexRunStops(w, k, n);
      assert "#" + w[k..k + n] == arg;
    }
  }

  /** The last occurrence of `p` starting in `lo..hi`. */
  function LastAt(w: string, p: string, lo: nat, hi: nat): (r: Option<nat>)
    ensures r.Some? ==> lo <= r.value <= hi && At(w, r.value, p)
    ensures r.Some? ==> forall j: nat :: r.value < j <= hi ==> !At(w, j, p)
    ensures r.None? ==> forall j: nat :: lo <= j <= hi ==> !At(w, j, p)
    decreases hi
  {
    if hi < lo then None
    else if At(w, hi, p) then Some(hi)
    else if hi == 0 then None
    else LastAt(w, p, lo, hi - 1)
  }

  /** The match whose opening tag starts at `i`: the last closing tag after
      it ends the middle group. */
  function MatchAt(w: string, i: nat, t: Tag): (r: Option<Match>)
    ensures r.Some? ==> IsMatch(w, t, r.value) && r.value.open == i
  {
    match OpenAt(w, i, t)
    case None => None
    case Some(o) =>
      match LastAt(w, Closer(t), o.end, |w|)
      case None => None
      case Some(j) => Some(Match(i, o.arg, j))
  }

  /** Any reading of the word puts an opening tag where `MatchAt` finds
      one, with a middle group no longer than `MatchAt`'s. */
  lemma MatchAtComplete(w: string, t: Tag, m: Match)
    requires IsMatch(w, t, m)
    ensures MatchAt(w, m.open, t).Some? && m.close <= MatchAt(w, m.open, t).value.close
  {
    OpenAtComplete(w, m.open, t, m.arg);
  }

  /** The largest `k <= i` with `p(k)`. */
  function LastWhere(p: nat -> bool, i: nat): (r: Option<nat>)
    ensures r.Some? ==> r.value <= i && p(r.value)
    ensures r.Some? ==> forall k: nat :: r.value < k <= i ==> !p(k)
    ensures r.None? ==> forall k: nat :: k <= i ==> !p(k)
    decreases i
  {
    if p(i) then Some(i) else if i == 0 then None else LastWhere(p, i - 1)
  }

  /** `SETTER.match(w)`: the match with the rightmost opening tag. */
  function TagMatch(w: string, t: Tag): (r: Option<Match>)
    ensures r.Some? ==> IsMatch(w, t, r.value)
  {
    match LastWhere((k: nat) => MatchAt(w, k, t).Some?, |w|)
    case None => None
    case Some(k) => MatchAt(w, k, t)
  }

  /** `TagMatch` finds a match exactly when the word can be read as
      tagged, and the one it finds is the matcher's preferred reading. */
  lemma TagMatchSpec(w: string, t: Tag)
    ensures TagMatch(w, t).None? <==> !Tagged(w, t)
    ensures TagMatch(w, t).Some? ==> forall m :: IsMatch(w, t, m) ==> Preferred(m, TagMatch(w, t).value)
  {
    var p := (k: nat) => MatchAt(w, k, t).Some?;
    var l := LastWhere(p, |w|);
    forall m | IsMatch(w, t, m)
      ensures TagMatch(w, t).Some? && Preferred(m, TagMatch(w, t).value)
    {
      MatchAtComplete(w, t, m);
      assert p(m.open);
    }
  }

  /** A tag pair is read as written when no other opening tag follows it
      and no other closing tag follows its own. */
  lemma TagMatchOnly(w: string, t: Tag, m: Match)
    requires IsMatch(w, t, m)
    requires forall k: nat :: m.open < k ==> !At(w, k, Opener(t))
    requires forall k: nat :: m.close < k ==> !At(w, k, Closer(t))
    ensures TagMatch(w, t) == Some(m)
  {
    TagMatchSpec(w, t);
    var r := TagMatch(w, t).value;
    AtOpener(w, r.open, t, r.arg);
    OpenAtComplete(w, m.open, t, m.arg);
    OpenAtComplete(w, m.open, t, r.arg);
  }

  /** A word no opening tag can start in is not tagged. */
  lemma Untagged(w: string, t: Tag)
    requires |t.name| > 0
    requires forall k :: 0 <= k < |w| - 1 && w[k] == '{' ==> w[k + 1] != t.name[0]
    ensures !Tagged(w, t)
  {
    if m :| IsMatch(w, t, m) {
      var tt := TagText(t, m.arg);
      AtFirstTwo(w, m.open, tt);
    }
  }

  /** `parts[0] + parts[2] + parts[3]` after a match, else the word. */
  function Strip(w: string, t: Tag): (r: string)
    ensures !Tagged(w, t) ==> r == w
    ensures Tagged(w, t) ==> TagMatch(w, t).Some?
    ensures Tagged(w, t) ==> |r| == |w| - |TagText(t, TagMatch(w, t).value.arg)| - |Closer(t)|
  {
    TagMatchSpec(w, t);
    match TagMatch(w, t)
    case None => w
    case Some(m) => Stripped(w, t, m)
  }

  // ------------------------------------------------ words

  datatype Style = Default | Oblique | Strong

  /** A colour: one of the view's own, or a `#hex` code from a tag. */
  datatype Colour = Preset(name: string) | Hex(code: string)

  /** The font's metrics: the width `get_rect` reports for a string, and
      the sized height. */
  datatype Font = Font(width: string -> nat, height: nat)

  /** One stored word: its text, its width, its style and colours. */
  datatype Chunk = Chunk(word: string, width: nat, style: Style, fg: Colour, bg: Colour)

  datatype TextView = TextView(rect: Rect, font: Font, fg: Colour, bg: Colour, text: seq<Chunk>)

  /** One pass of the loop in `TextView.add_text`: the background tag is
      stripped first, then the colour tag, then oblique, then strong. */
  function Word(v: TextView, w: string): (r: Chunk)
    ensures var w1 := Strip(w, BG_TAG);
      var w2 := Strip(w1, COLOR_TAG);
      var w3 := Strip(w2, OBLIQUE_TAG);
      && r.word == Strip(w3, STRONG_TAG) && r.width == v.font.width(r.word)
      && (r.style == Strong <==> Tagged(w3, STRONG_TAG))
      && (r.style == Oblique <==> Tagged(w2, OBLIQUE_TAG) && !Tagged(w3, STRONG_TAG))
      && (!Tagged(w, BG_TAG) ==> r.bg == v.bg)
      && (Tagged(w, BG_TAG) ==> r.bg == Hex(TagMatch(w, BG_TAG).value.arg))
      && (!Tagged(w1, COLOR_TAG) ==> r.fg == v.fg)
      && (Tagged(w1, COLOR_TAG) ==> r.fg == Hex(TagMatch(w1, COLOR_TAG).value.arg))
  {
    var bm := TagMatch(w, BG_TAG);
    var w1 := Strip(w, BG_TAG);
    var cm := TagMatch(w1, COLOR_TAG);
    var w2 := Strip(w1, COLOR_TAG);
    var om := TagMatch(w2, OBLIQUE_TAG);
    var w3 := Strip(w2, OBLIQUE_TAG);
    var sm := TagMatch(w3, STRONG_TAG);
    var w4 := Strip(w3, STRONG_TAG);
    var style := if sm.Some? then Strong else if om.Some? then Oblique else Default;
    var fg := if cm.Some? then Hex(cm.value.arg) else v.fg;
    var bg := if bm.Some? then Hex(bm.value.arg) else v.bg;
    Chunk(w4, v.font.width(w4), style, fg, bg)
  }

  /** A word with no `{` is stored as it is, in the view's colours and the
      default style. */
  lemma PlainWord(v: TextView, w: string)
    requires '{' !in w
    ensures Word(v, w) == Chunk(w, v.font.width(w), Default, v.fg, v.bg)
  {
    forall t: Tag | |t.name| > 0
      ensures !Tagged(w, t)
    {
      Untagged(w, t);
    }
    assert !Tagged(w, BG_TAG) && !Tagged(w, COLOR_TAG) && !Tagged(w, OBLIQUE_TAG) && !Tagged(w, STRONG_TAG);
  }

  /** In `{s}x{/s}` the only `{` are those of the two tags. */
  lemma StrongBraces(x: string)
    requires '{' !in x
    ensures var w := "{s}" + x + "{/s}";
      forall k :: 0 <= k < |w| && w[k] == '{' ==> k == 0 || k == |x| + 3
  {
  }

  /** `{s}x{/s}` carries none of the other three tags. */
  lemma StrongUntagged(x: string)
    requires '{' !in x
    ensures var w := "{s}" + x + "{/s}";
      !Tagged(w, BG_TAG) && !Tagged(w, COLOR_TAG) && !Tagged(w, OBLIQUE_TAG)
  {
    var w := "{s}" + x + "{/s}";
    StrongBraces(x);
    assert w[1] == 's' && w[|x| + 4] == '/';
    Untagged(w, BG_TAG);
    Untagged(w, COLOR_TAG);
    Untagged(w, OBLIQUE_TAG);
  }

  /** `{s}x{/s}` is read as the strong tag around `x`. */
  lemma StrongMatch(x: string)
    requires '{' !in x
    ensures var w := "{s}" + x + "{/s}";
      && Tagged(w, STRONG_TAG)
      && Strip(w, STRONG_TAG) == x
  {
    var w := "{s}" + x + "{/s}";
    StrongBraces(x);
    var m := Match(0, "", |x| + 3);
    assert w[0..3] == "{s}";
    assert w[|x| + 3..|x| + 7] == "{/s}";
    assert IsMatch(w, STRONG_TAG, m);
    forall k: nat | 0 < k
      ensures !At(w, k, Opener(STRONG_TAG))
    {
      if At(w, k, Opener(STRONG_TAG)) {
        AtFirstTwo(w, k, "{s}");
      }
    }
    assert forall k: nat :: |x| + 3 < k ==> !At(w, k, Closer(STRONG_TAG));
    TagMatchOnly(w, STRONG_TAG, m);
    assert Stripped(w, STRONG_TAG, m) == w[..0] + w[3..|x| + 3] + w[|x| + 7..];
    assert w[3..|x| + 3] == x && w[..0] == [] && w[|x| + 7..] == [];
  }

  /** `{s}x{/s}` is stored as `x`, in the strong style and the view's
      colours. */
  lemma StrongWord(v: TextView, x: string)
    requires '{' !in x
    ensures Word(v, "{s}" + x + "{/s}") == Chunk(x, v.font.width(x), Strong, v.fg, v.bg)
  {
    StrongUntagged(x);
    StrongMatch(x);
  }

  // ------------------------------------------------ adding text

  /** `TextView.add_text`: one chunk per word of `line.split()`, in
      order, appended to the view's text; nothing else changes. */
  function AddText(v: TextView, line: string): (r: TextView)
    ensures var ws := Split(line);
      && r == v.(text := r.text)
      && |r.text| == |v.text| + |ws|
      && r.text[..|v.text|] == v.text
      && (forall i :: 0 <= i < |ws| ==> r.text[|v.text| + i] == Word(v, ws[i]))
  {
    v.(text := v.text + Words(v, Split(line)))
  }

  /** The chunk of each word, in order. */
  function Words(v: TextView, ws: seq<string>): (r: seq<Chunk>)
    ensures |r| == |ws| && forall i :: 0 <= i < |ws| ==> r[i] == Word(v, ws[i])
  {
    seq(|ws|, i requires 0 <= i < |ws| => Word(v, ws[i]))
  }

  /** A line of plain words is stored word for word. */
  lemma AddPlainText(v: TextView, line: string)
    requires '{' !in line
    ensures forall i :: 0 <= i < |Split(line)| ==>
      AddText(v, line).text[|v.text| + i] == Chunk(Split(line)[i], v.font.width(Split(line)[i]), Default, v.fg, v.bg)
  {
    var ws := Split(line);
    SplitKeepsOut(line, '{');
    forall i | 0 <= i < |ws|
      ensures Word(v, ws[i]) == Chunk(ws[i], v.font.width(ws[i]), Default, v.fg, v.bg)
    {
      PlainWord(v, ws[i]);
    }
  }

  /** A character missing from a line is missing from every word of it. */
  lemma {:induction false} SplitKeepsOut(s: string, c: char)
    requires c !in s
    ensures forall i :: 0 <= i < |Split(s)| ==> c !in Split(s)[i]
    decreases |s|
  {
    if |s| > 0 {
      if IsSpace(s[0]) {
        SplitKeepsOut(s[1..], c);
      } else {
        var n := WordLen(s);
        SplitKeepsOut(s[n..], c);
        assert Split(s) == [s[..n]] + Split(s[n..]);
      }
    }
  }

  // ------------------------------------------------ drawing

  /** `int(font.get_sized_height() * 1.1)`: the float product lands on or
      just above eleven tenths of the height, so truncation gives the
      exact floor. */
  function LineSpacing(h: nat): (s: nat)
    ensures 10 * s <= 11 * h < 10 * s + 10
  {
    11 * h / 10
  }

  /** Where `draw` puts one chunk. */
  datatype Pos = Pos(x: int, y: int)

  /** The pen for the next chunk, given where the previous chunk went: a
      chunk whose right edge would pass the view's width goes to the start
      of the next line. */
  function Next(left: int, width: int, spacing: int, x: int, y: int, w: nat): (p: Pos)
    ensures x - left + w > width ==> p == Pos(left, y + spacing)
    ensures x - left + w <= width ==> p == Pos(x, y)
  {
    if x - left + w > width then Pos(left, y + spacing) else Pos(x, y)
  }

  /** The loop of `TextView.draw` from pen `(x, y)`. */
  function Place(cs: seq<Chunk>, left: int, width: int, spacing: int, space: nat, x: int, y: int): (r: seq<Pos>)
    ensures |r| == |cs|
    ensures |cs| > 0 ==> r[0] == Next(left, width, spacing, x, y, cs[0].width)
    decreases |cs|
  {
    if |cs| == 0 then []
    else
      var p := Next(left, width, spacing, x, y, cs[0].width);
      [p] + Place(cs[1..], left, width, spacing, space, p.x + cs[0].width + space, p.y)
  }

  /** `TextView.draw`: the pen starts one line below the view's top-left
      corner. */
  function Draw(v: TextView): (r: seq<Pos>)
    ensures |r| == |v.text|
  {
    var sp := LineSpacing(v.font.height);
    Place(v.text, v.rect.x, v.rect.width, sp, v.font.width(" "), v.rect.x, v.rect.y + sp)
  }

  /** Each chunk sits right after its predecessor, a space apart, unless
      it would overflow; then it starts the next line at the left edge. */
  lemma {:induction false} PlaceStep(cs: seq<Chunk>, left: int, width: int, spacing: int, space: nat, x: int, y: int, i: nat)
    requires 0 < i < |cs|
    ensures var r := Place(cs, left, width, spacing, space, x, y);
      r[i] == Next(left, width, spacing, r[i - 1].x + cs[i - 1].width + space, r[i - 1].y, cs[i].width)
    decreases i
  {
    var p := Next(left, width, spacing, x, y, cs[0].width);
    var x1 := p.x + cs[0].width + space;
    if i > 1 {
      PlaceStep(cs[1..], left, width, spacing, space, x1, p.y, i - 1);
    }
  }

  /** Every chunk no wider than the view is drawn inside it horizontally. */
  lemma {:induction false} PlaceInside(cs: seq<Chunk>, left: int, width: int, spacing: int, space: nat, x: int, y: int)
    requires left <= x
    ensures var r := Place(cs, left, width, spacing, space, x, y);
      forall i :: 0 <= i < |cs| && cs[i].width <= width ==> left <= r[i].x && r[i].x + cs[i].width <= left + width
    decreases |cs|
  {
    if |cs| > 0 {
      var p := Next(left, width, spacing, x, y, cs[0].width);
      PlaceInside(cs[1..], left, width, spacing, space, p.x + cs[0].width + space, p.y);
    }
  }

  /** Lines only move down the view, and a chunk is never above the pen. */
  lemma {:induction false} PlaceDown(cs: seq<Chunk>, left: int, width: int, spacing: int, space: nat, x: int, y: int)
    requires spacing >= 0
    ensures forall i :: 0 <= i < |cs| ==> y <= Place(cs, left, width, spacing, space, x, y)[i].y
    ensures forall i, j :: 0 <= i < j < |cs| ==>
      Place(cs, left, width, spacing, space, x, y)[i].y <= Place(cs, left, width, spacing, space, x, y)[j].y
    decreases |cs|
  {
    if |cs| > 0 {
      var p := Next(left, width, spacing, x, y, cs[0].width);
      var rest := Place(cs[1..], left, width, spacing, space, p.x + cs[0].width + space, p.y);
      PlaceDown(cs[1..], left, width, spacing, space, p.x + cs[0].width + space, p.y);
      var r := Place(cs, left, width, spacing, space, x, y);
      assert r == [p] + rest;
      forall i, j | 0 <= i < j < |cs|
        ensures r[i].y <= r[j].y
      {
        assert r[j] == rest[j - 1];
        if i > 0 {
          assert r[i] == rest[i - 1];
          assert rest[i - 1].y <= rest[j - 1].y;
        } else {
          assert p.y <= rest[j - 1].y;
        }
      }
      forall i | 0 < i < |cs|
        ensures y <= r[i].y
      {
        assert r[i] == rest[i - 1];
      }
    }
  }

  /** `rect.inflate(2, 2)`: one pixel larger on every side. */
  function Outline(r: Rect): (o: Rect)
    ensures o.x == r.x - 1 && o.y == r.y - 1 && o.width == r.width + 2 && o.height == r.height + 2
  {
    Rect(r.x - 1, r.y - 1, r.width + 2, r.height + 2)
  }

  lemma OutlineContains(r: Rect, x: int, y: int)
    requires Contains(r, x, y)
    ensures Contains(Outline(r), x, y)
    ensures Contains(Outline(r), r.x - 1, r.y - 1) || r.width + 2 <= 0 || r.height + 2 <= 0
  {
  }
}
