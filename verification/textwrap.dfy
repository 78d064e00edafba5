/** The text boxes' `add_text`: a new line is wrapped to the box (by pixel
    width with a greedy word fill, by column count at the last space, or
    as styled word pieces) and appended to a line buffer whose oldest lines
    are dropped when it grows too long. Font metrics are an abstract
    `width` function. */
module TextWrap {
  import opened Wrappers
  import opened PyStr

  /** Why wrapping raises: `parts[0]` of a line with no words, or
      `rindex` finding no space to break at. */
  datatype WrapError = NoWords | NoSpaceToBreak

  // ------------------------------------------------ trimming the buffer

  /** `while len(buff) > max_lines: buff = buff[1:]` */
  function Trim<T>(buff: seq<T>, maxLines: nat): (r: seq<T>)
    ensures |r| <= maxLines || r == buff
    ensures |buff| <= maxLines ==> r == buff
    ensures |buff| > maxLines ==> |r| == maxLines
    ensures r == buff[|buff| - |r|..]
    decreases |buff|
  {
    if |buff| > maxLines then Trim(buff[1..], maxLines) else buff
  }

  /** `while len(text) * font_height > textrect.height: text = text[1:]`:
      the longest run of newest lines that fits the box's height. */
  function TrimToHeight<T>(text: seq<T>, fontHeight: nat, height: nat): (r: seq<T>)
    ensures |r| <= |text| && |r| * fontHeight <= height
    ensures r == text[|text| - |r|..]
    ensures r == text || (|r| + 1) * fontHeight > height
    decreases |text|
  {
    if |text| * fontHeight > height then TrimToHeight(text[1..], fontHeight, height) else text
  }

  // ------------------------------------------------ greedy pixel wrap

  /** The loop over `parts[1:]`: a word joins the current line when the
      line, a space and the word measure strictly less than `maxWidth`;
      otherwise the line is emitted and the word starts the next one. */
  function Greedy(width: string -> nat, space: nat, maxWidth: int, cur: string, words: seq<string>): seq<string>
    decreases |words|
  {
    if |words| == 0 then (if |cur| > 0 then [cur] else [])
    else if width(cur) + space + width(words[0]) < maxWidth then
      Greedy(width, space, maxWidth, cur + " " + words[0], words[1..])
    else [cur] + Greedy(width, space, maxWidth, words[0], words[1..])
  }

  predicate AllWords(ws: seq<string>) {
    forall i :: 0 <= i < |ws| ==> IsWord(ws[i])
  }

  lemma JoinCons(sep: string, a: string, xs: seq<string>)
    ensures |xs| == 0 ==> Join(sep, [a] + xs) == a
    ensures |xs| > 0 ==> Join(sep, [a] + xs) == a + sep + Join(sep, xs)
  {
    assert ([a] + xs)[1..] == xs;
  }

  /** No word is lost, changed or reordered: the emitted lines, joined with
      single spaces, are the current line and the words joined the same
      way. */
  lemma {:induction false} GreedyJoin(width: string -> nat, space: nat, maxWidth: int, cur: string, words: seq<string>)
    requires |cur| > 0 && AllWords(words)
    ensures |Greedy(width, space, maxWidth, cur, words)| > 0
    ensures Join(" ", Greedy(width, space, maxWidth, cur, words)) == Join(" ", [cur] + words)
    decreases |words|
  {
    if |words| > 0 {
      var w, rest := words[0], words[1..];
      assert words == [w] + rest;
      JoinCons(" ", cur, words);
      JoinCons(" ", w, rest);
      if width(cur) + space + width(w) < maxWidth {
        GreedyJoin(width, space, maxWidth, cur + " " + w, rest);
        JoinCons(" ", cur + " " + w, rest);
      } else {
        GreedyJoin(width, space, maxWidth, w, rest);
        JoinCons(" ", cur, Greedy(width, space, maxWidth, w, rest));
      }
    }
  }

  /** The first emitted line starts with the current line, followed by a
      space if anything was joined to it. */
  lemma {:induction false} GreedyFirst(width: string -> nat, space: nat, maxWidth: int, cur: string, words: seq<string>)
    requires |cur| > 0
    ensures |Greedy(width, space, maxWidth, cur, words)| > 0
    ensures var first := Greedy(width, space, maxWidth, cur, words)[0];
      |first| >= |cur| && first[..|cur|] == cur && (|first| > |cur| ==> first[|cur|] == ' ')
    decreases |words|
  {
    if |words| > 0 && width(cur) + space + width(words[0]) < maxWidth {
      var next := cur + " " + words[0];
      GreedyFirst(width, space, maxWidth, next, words[1..]);
      var first := Greedy(width, space, maxWidth, next, words[1..])[0];
      assert first[..|next|][..|cur|] == first[..|cur|];
      assert first[|cur|] == first[..|next|][|cur|];
    }
  }

  /** The first word of a line. */
  function FirstWord(s: string): string {
    s[..WordLen(s)]
  }

  lemma FirstWordOf(w: string, s: string)
    requires IsWord(w)
    requires |s| >= |w| && s[..|w|] == w && (|s| > |w| ==> s[|w|] == ' ')
    ensures FirstWord(s) == w
  {
    assert s == w + s[|w|..];
    WordLenOfWord(w, s[|w|..]);
  }

  /** Greediness: a line is broken only when the next line's first word
      would not have fitted after it. */
  lemma {:induction false} GreedyMaximal(width: string -> nat, space: nat, maxWidth: int, cur: string, words: seq<string>)
    requires |cur| > 0 && AllWords(words)
    ensures var lines := Greedy(width, space, maxWidth, cur, words);
      forall i :: 0 <= i < |lines| - 1 ==> width(lines[i]) + space + width(FirstWord(lines[i + 1])) >= maxWidth
    decreases |words|
  {
    if |words| > 0 {
      var w, rest := words[0], words[1..];
      assert AllWords(rest) by {
        assert forall i :: 0 <= i < |rest| ==> rest[i] == words[i + 1];
      }
      if width(cur) + space + width(w) < maxWidth {
        GreedyMaximal(width, space, maxWidth, cur + " " + w, rest);
        assert Greedy(width, space, maxWidth, cur, words) == Greedy(width, space, maxWidth, cur + " " + w, rest);
      } else {
        GreedyMaximal(width, space, maxWidth, w, rest);
        GreedyFirst(width, space, maxWidth, w, rest);
        var tail := Greedy(width, space, maxWidth, w, rest);
        FirstWordOf(w, tail[0]);
        var lines := Greedy(width, space, maxWidth, cur, words);
        assert lines == [cur] + tail;
        forall i | 0 <= i < |lines| - 1
          ensures width(lines[i]) + space + width(FirstWord(lines[i + 1])) >= maxWidth
        {
          if i > 0 {
            assert lines[i] == tail[i - 1] && lines[i + 1] == tail[i];
          }
        }
      }
    }
  }

  /** A word too wide for the box on its own is emitted as a line by
      itself. */
  lemma {:induction false} GreedyWideAlone(width: string -> nat, space: nat, maxWidth: int, cur: string, words: seq<string>)
    requires |cur| > 0 && AllWords(words)
    ensures |Greedy(width, space, maxWidth, cur, words)| > 0
    ensures width(cur) >= maxWidth ==> Greedy(width, space, maxWidth, cur, words)[0] == cur
    ensures forall w :: w in words && width(w) >= maxWidth ==> w in Greedy(width, space, maxWidth, cur, words)
    decreases |words|
  {
    GreedyJoin(width, space, maxWidth, cur, words);
    if |words| > 0 {
      var w, rest := words[0], words[1..];
      assert forall v :: v in words ==> v == w || v in rest;
      if width(cur) + space + width(w) < maxWidth {
        GreedyWideAlone(width, space, maxWidth, cur + " " + w, rest);
      } else {
        GreedyWideAlone(width, space, maxWidth, w, rest);
      }
    }
  }

  /** The wrap of `add_text` by pixel width: a line that fits is kept
      whole; otherwise its words are filled greedily. */
  function WrapVariable(width: string -> nat, space: nat, maxWidth: int, line: string): (r: Result<seq<string>, WrapError>)
    ensures width(line) <= maxWidth ==> r == Success([line])
    ensures width(line) > maxWidth ==> (r.Failure? <==> |Split(line)| == 0)
    ensures width(line) > maxWidth && r.Success? ==> Join(" ", r.value) == Join(" ", Split(line))
  {
    if width(line) <= maxWidth then Success([line])
    else
      var parts := Split(line);
      if |parts| == 0 then Failure(NoWords)
      else
        assert forall i :: 0 <= i < |parts| ==> parts[i] in parts;
        GreedyJoin(width, space, maxWidth, parts[0], parts[1..]);
        assert [parts[0]] + parts[1..] == parts;
        Success(Greedy(width, space, maxWidth, parts[0], parts[1..]))
  }

  /** `add_text` of the variable-width and dialog demos: wrap, append,
      keep the newest `maxLines`. */
  function AddTextVariable(buff: seq<string>, width: string -> nat, space: nat, maxWidth: int, maxLines: nat,
                           line: string): (r: Result<seq<string>, WrapError>)
    ensures r.Success? ==> |r.value| <= maxLines || r.value == buff + [line]
    ensures r.Success? ==>
      && WrapVariable(width, space, maxWidth, line).Success?
      && r.value == Trim(buff + WrapVariable(width, space, maxWidth, line).value, maxLines)
    ensures r.Failure? <==> WrapVariable(width, space, maxWidth, line).Failure?
  {
    var lines :- WrapVariable(width, space, maxWidth, line);
    Success(Trim(buff + lines, maxLines))
  }

  // ------------------------------------------------ monospaced wrap

  /** The column wrap of the monospaced demo: while the rest is longer than
      `maxColumns`, cut at the last space before column `maxColumns` and
      drop that space. */
  function ColumnWrap(line: string, maxColumns: nat): (r: Result<seq<string>, WrapError>)
    ensures |line| <= maxColumns ==> r == Success([line])
    ensures |line| > maxColumns && RIndexSpace(line, maxColumns).None? ==> r == Failure(NoSpaceToBreak)
    ensures r.Success? ==> |r.value| > 0 && Join(" ", r.value) == line
    ensures r.Success? ==> forall i :: 0 <= i < |r.value| - 1 ==> |r.value[i]| < maxColumns
    ensures r.Success? ==> |r.value[|r.value| - 1]| <= maxColumns
    decreases |line|
  {
    if |line| <= maxColumns then Success([line])
    else
      match RIndexSpace(line, maxColumns)
      case None => Failure(NoSpaceToBreak)
      case Some(i) =>
        var rest :- ColumnWrap(line[i + 1..], maxColumns);
        ChunksCons(line, i, rest, maxColumns);
        Success([line[..i]] + rest)
  }

  /** One more chunk in front: cut at the space at `i`, before column
      `maxColumns`, ahead of the chunks of the rest of the line. */
  lemma ChunksCons(line: string, i: nat, rest: seq<string>, maxColumns: nat)
    requires i < maxColumns && i < |line| && line[i] == ' '
    requires |rest| > 0 && Join(" ", rest) == line[i + 1..]
    requires forall k :: 0 <= k < |rest| - 1 ==> |rest[k]| < maxColumns
    requires |rest[|rest| - 1]| <= maxColumns
    ensures var r := [line[..i]] + rest;
      && Join(" ", r) == line
      && (forall k :: 0 <= k < |r| - 1 ==> |r[k]| < maxColumns)
      && |r[|r| - 1]| <= maxColumns
  {
    JoinCons(" ", line[..i], rest);
    assert line == line[..i] + " " + line[i + 1..];
    var r := [line[..i]] + rest;
    assert forall k :: 1 <= k < |r| ==> r[k] == rest[k - 1];
  }

  /** `add_text` of the monospaced demo. */
  function AddTextMono(buff: seq<string>, maxColumns: nat, maxLines: nat, line: string): (r: Result<seq<string>, WrapError>)
    ensures r.Success? ==> |r.value| <= maxLines || r.value == buff + [line]
    ensures r.Failure? <==> ColumnWrap(line, maxColumns).Failure?
    ensures r.Success? ==> r.value == Trim(buff + ColumnWrap(line, maxColumns).value, maxLines)
  {
    var chunks :- ColumnWrap(line, maxColumns);
    Success(Trim(buff + chunks, maxLines))
  }

  // ------------------------------------------------ styled pieces

  /** A word with its trailing space and the font and colour drawn for it
      (an opaque style id). */
  datatype Piece = Piece(text: string, style: nat)

  /** Total width of a run of pieces. */
  function SumWidth(width: Piece -> nat, ps: seq<Piece>): nat {
    if |ps| == 0 then 0 else SumWidth(width, ps[..|ps| - 1]) + width(ps[|ps| - 1])
  }

  /** The loop of the styled demo: `w` is the width of `acc`; a piece joins
      when the total stays strictly under `maxWidth`, otherwise `acc` is
      pushed (even when empty) and the piece starts a new line. */
  function Styled(width: Piece -> nat, maxWidth: int, acc: seq<Piece>, w: int, ps: seq<Piece>): seq<seq<Piece>>
    decreases |ps|
  {
    if |ps| == 0 then (if |acc| > 0 then [acc] else [])
    else if w + width(ps[0]) < maxWidth then Styled(width, maxWidth, acc + [ps[0]], w + width(ps[0]), ps[1..])
    else [acc] + Styled(width, maxWidth, [ps[0]], width(ps[0]), ps[1..])
  }

  /** One piece per word, each with a trailing space; `style(i)` is the
      font and colour drawn for the `i`-th word. */
  function Pieces(words: seq<string>, style: nat -> nat): (ps: seq<Piece>)
    ensures |ps| == |words|
    ensures forall i :: 0 <= i < |words| ==> ps[i] == Piece(words[i] + " ", style(i))
  {
    seq(|words|, i requires 0 <= i < |words| => Piece(words[i] + " ", style(i)))
  }

  function WrapStyled(width: Piece -> nat, maxWidth: int, line: string, style: nat -> nat): seq<seq<Piece>> {
    Styled(width, maxWidth, [], 0, Pieces(Split(line), style))
  }

  /** The pieces come out in order, every line with two or more pieces
      fits strictly under `maxWidth`, and a line is closed only when the
      next piece would not have fitted on it; only the first line can be
      empty. */
  lemma StyledShape(width: Piece -> nat, maxWidth: int, acc: seq<Piece>, w: int, ps: seq<Piece>)
    requires w == SumWidth(width, acc)
    requires |acc| <= 1 || w < maxWidth
    ensures Flatten(Styled(width, maxWidth, acc, w, ps)) == acc + ps
    ensures forall l :: l in Styled(width, maxWidth, acc, w, ps) ==> |l| <= 1 || SumWidth(width, l) < maxWidth
    ensures StyledGreedy(width, maxWidth, Styled(width, maxWidth, acc, w, ps))
    ensures forall i :: 1 <= i < |Styled(width, maxWidth, acc, w, ps)| ==> |Styled(width, maxWidth, acc, w, ps)[i]| > 0
  {
    StyledFlatten(width, maxWidth, acc, w, ps);
    StyledFits(width, maxWidth, acc, w, ps);
    StyledMaximal(width, maxWidth, acc, w, ps);
    StyledLaterNonEmpty(width, maxWidth, acc, w, ps);
  }

  lemma {:induction false} StyledFlatten(width: Piece -> nat, maxWidth: int, acc: seq<Piece>, w: int, ps: seq<Piece>)
    ensures Flatten(Styled(width, maxWidth, acc, w, ps)) == acc + ps
    decreases |ps|
  {
    if |ps| == 0 {
      if |acc| > 0 {
        assert Flatten([acc]) == acc + Flatten([acc][1..]);
      }
    } else {
      var p := ps[0];
      assert ps == [p] + ps[1..];
      if w + width(p) < maxWidth {
        StyledFlatten(width, maxWidth, acc + [p], w + width(p), ps[1..]);
      } else {
        StyledFlatten(width, maxWidth, [p], width(p), ps[1..]);
        var tail := Styled(width, maxWidth, [p], width(p), ps[1..]);
        assert ([acc] + tail)[1..] == tail;
      }
    }
  }

  lemma {:induction false} StyledFits(width: Piece -> nat, maxWidth: int, acc: seq<Piece>, w: int, ps: seq<Piece>)
    requires w == SumWidth(width, acc)
    requires |acc| <= 1 || w < maxWidth
    ensures forall l :: l in Styled(width, maxWidth, acc, w, ps) ==> |l| <= 1 || SumWidth(width, l) < maxWidth
    decreases |ps|
  {
    if |ps| > 0 {
      var p := ps[0];
      if w + width(p) < maxWidth {
        assert (acc + [p])[..|acc|] == acc;
        StyledFits(width, maxWidth, acc + [p], w + width(p), ps[1..]);
      } else {
        assert [p][..0] == [];
        StyledFits(width, maxWidth, [p], width(p), ps[1..]);
      }
    }
  }

  lemma {:induction false} StyledLaterNonEmpty(width: Piece -> nat, maxWidth: int, acc: seq<Piece>, w: int, ps: seq<Piece>)
    ensures forall i :: 1 <= i < |Styled(width, maxWidth, acc, w, ps)| ==> |Styled(width, maxWidth, acc, w, ps)[i]| > 0
    decreases |ps|
  {
    if |ps| > 0 {
      var p := ps[0];
      if w + width(p) < maxWidth {
        StyledLaterNonEmpty(width, maxWidth, acc + [p], w + width(p), ps[1..]);
      } else {
        StyledLaterNonEmpty(width, maxWidth, [p], width(p), ps[1..]);
        var tail := Styled(width, maxWidth, [p], width(p), ps[1..]);
        assert ([acc] + tail)[1..] == tail;
        StyledHead(width, maxWidth, p, ps[1..]);
      }
    }
  }

  /** Greediness of a run of styled lines: every line but the last was
      closed only because the next line's first piece would have taken it
      to `maxWidth` or past. */
  predicate StyledGreedy(width: Piece -> nat, maxWidth: int, lines: seq<seq<Piece>>)
    decreases |lines|
  {
    |lines| <= 1 ||
      (&& |lines[1]| > 0 && SumWidth(width, lines[0]) + width(lines[1][0]) >= maxWidth
       && StyledGreedy(width, maxWidth, lines[1..]))
  }

  /** The styled loop is greedy. */
  lemma {:induction false} StyledMaximal(width: Piece -> nat, maxWidth: int, acc: seq<Piece>, w: int, ps: seq<Piece>)
    requires w == SumWidth(width, acc)
    ensures StyledGreedy(width, maxWidth, Styled(width, maxWidth, acc, w, ps))
    decreases |ps|
  {
    if |ps| > 0 {
      var p := ps[0];
      if w + width(p) < maxWidth {
        assert (acc + [p])[..|acc|] == acc;
        assert SumWidth(width, acc + [p]) == w + width(p);
        StyledMaximal(width, maxWidth, acc + [p], w + width(p), ps[1..]);
        assert Styled(width, maxWidth, acc, w, ps) == Styled(width, maxWidth, acc + [p], w + width(p), ps[1..]);
      } else {
        assert [p][..0] == [];
        StyledMaximal(width, maxWidth, [p], width(p), ps[1..]);
        StyledFirstPiece(width, maxWidth, [p], width(p), ps[1..]);
        var tail := Styled(width, maxWidth, [p], width(p), ps[1..]);
        GreedyCons(width, maxWidth, acc, tail);
        assert Styled(width, maxWidth, acc, w, ps) == [acc] + tail;
      }
    }
  }

  /** A line closed because the next line's first piece did not fit keeps
      a greedy run greedy. */
  lemma GreedyCons(width: Piece -> nat, maxWidth: int, l: seq<Piece>, tail: seq<seq<Piece>>)
    requires StyledGreedy(width, maxWidth, tail) && |tail| > 0 && |tail[0]| > 0
    requires SumWidth(width, l) + width(tail[0][0]) >= maxWidth
    ensures StyledGreedy(width, maxWidth, [l] + tail)
  {
    assert ([l] + tail)[1..] == tail;
  }

  /** Read pairwise: each line and the first piece of the next reach
      `maxWidth`. */
  lemma {:induction false} StyledGreedyAt(width: Piece -> nat, maxWidth: int, lines: seq<seq<Piece>>, i: nat)
    requires StyledGreedy(width, maxWidth, lines) && i + 1 < |lines|
    ensures |lines[i + 1]| > 0 && SumWidth(width, lines[i]) + width(lines[i + 1][0]) >= maxWidth
    decreases i
  {
    if i > 0 {
      StyledGreedyAt(width, maxWidth, lines[1..], i - 1);
    }
  }

  /** A fresh line starting with `p` comes out first and holds `p`. */
  lemma StyledHead(width: Piece -> nat, maxWidth: int, p: Piece, ps: seq<Piece>)
    ensures |Styled(width, maxWidth, [p], width(p), ps)| > 0
    ensures |Styled(width, maxWidth, [p], width(p), ps)[0]| > 0
  {
    StyledNonEmptyHead(width, maxWidth, [p], width(p), ps);
  }

  lemma {:induction false} StyledNonEmptyHead(width: Piece -> nat, maxWidth: int, acc: seq<Piece>, w: int, ps: seq<Piece>)
    requires |acc| > 0
    ensures |Styled(width, maxWidth, acc, w, ps)| > 0
    ensures |Styled(width, maxWidth, acc, w, ps)[0]| > 0
    decreases |ps|
  {
    if |ps| > 0 && w + width(ps[0]) < maxWidth {
      StyledNonEmptyHead(width, maxWidth, acc + [ps[0]], w + width(ps[0]), ps[1..]);
    }
  }

  /** A first piece too wide for the box pushes an empty line before it. */
  lemma StyledWideFirst(width: Piece -> nat, maxWidth: int, ps: seq<Piece>)
    requires |ps| > 0 && width(ps[0]) >= maxWidth
    ensures |Styled(width, maxWidth, [], 0, ps)| >= 2
    ensures Styled(width, maxWidth, [], 0, ps)[0] == []
    ensures |Styled(width, maxWidth, [], 0, ps)[1]| > 0
    ensures Styled(width, maxWidth, [], 0, ps)[1][0] == ps[0]
  {
    StyledNonEmptyHead(width, maxWidth, [ps[0]], width(ps[0]), ps[1..]);
    StyledFirstPiece(width, maxWidth, [ps[0]], width(ps[0]), ps[1..]);
  }

  lemma {:induction false} StyledFirstPiece(width: Piece -> nat, maxWidth: int, acc: seq<Piece>, w: int, ps: seq<Piece>)
    requires |acc| > 0
    ensures |Styled(width, maxWidth, acc, w, ps)| > 0
    ensures |Styled(width, maxWidth, acc, w, ps)[0]| > 0 && Styled(width, maxWidth, acc, w, ps)[0][0] == acc[0]
    decreases |ps|
  {
    StyledNonEmptyHead(width, maxWidth, acc, w, ps);
    if |ps| > 0 && w + width(ps[0]) < maxWidth {
      StyledFirstPiece(width, maxWidth, acc + [ps[0]], w + width(ps[0]), ps[1..]);
    }
  }

  /** `add_text` of the styled demo. */
  function AddTextStyled(buff: seq<seq<Piece>>, width: Piece -> nat, maxWidth: int, maxLines: nat,
                         line: string, style: nat -> nat): (r: seq<seq<Piece>>)
    ensures |r| <= maxLines || |buff| + |WrapStyled(width, maxWidth, line, style)| <= maxLines
    ensures |r| <= |buff| + |WrapStyled(width, maxWidth, line, style)|
    ensures r == (buff + WrapStyled(width, maxWidth, line, style))[|buff + WrapStyled(width, maxWidth, line, style)| - |r|..]
  {
    Trim(buff + WrapStyled(width, maxWidth, line, style), maxLines)
  }

  /** The styled wrap keeps the words in order, one piece each with its
      trailing space. */
  lemma StyledKeepsWords(width: Piece -> nat, maxWidth: int, line: string, style: nat -> nat)
    ensures var ps := Flatten(WrapStyled(width, maxWidth, line, style));
      |ps| == |Split(line)| && forall i :: 0 <= i < |ps| ==> ps[i].text == Split(line)[i] + " "
  {
    StyledShape(width, maxWidth, [], 0, Pieces(Split(line), style));
  }
}
