/** The Tiled map loader that every tile demo carries a copy of: layer
    payload decoding (two CSV dialects and little-endian 32-bit words),
    tileset atlas slicing into a 1-based tile list, and row-major lookup.

    XML parsing and image loading are outside the model: a map arrives as
    its parsed attributes (`LayerRecord`, sheet sizes), and the base64 +
    zlib stage arrives as an opaque function from the `<data>` text to the
    inflated bytes. */
module Tiled {
  import opened Wrappers
  import opened Arith
  import opened PyStr
  import opened Grid

  type pos = n: int | n > 0 witness 1

  type byte = b: int | 0 <= b < 256

  const TWO_32: int := 0x1_0000_0000

  /** The exceptions a map load can raise. */
  datatype LoadError =
    | UnsupportedEncoding      // RuntimeError('Unsupported encoding/compression.')
    | MissingEncoding          // KeyError on data.attrib['encoding']
    | BadToken(token: string)  // ValueError from int(token)
    | BadByteCount(count: nat) // struct.error: payload not a multiple of 4 bytes
    | InflateFailed            // base64 or zlib rejected the payload
    | MultipleLayers           // SystemExit from the single-layer loader
    | NoLayers                 // IndexError on layers[0]

  /** One parsed `<layer>`: its name, its `<data>` attributes and text. */
  datatype LayerRecord = LayerRecord(name: string, encoding: Option<string>, compression: Option<string>, text: string)

  /** Which copy of the loader: the whitespace-and-comma CSV reader with
      the base64/zlib branch (tile movement, sprite unwalkables), the
      comma-only CSV reader with the base64/zlib branch (triggers, scaled
      tiles, smooth scrolling), or the CSV-only loader (tilemap layers). */
  datatype Loader = LooseWithZlib | CommaWithZlib | LooseCsvOnly

  // ---------------------------------------------------------------- CSV

  /** `int(c)` for every token, in order; the first token `int` rejects
      aborts the load. */
  function ParseAll(tokens: seq<string>): (r: Result<seq<int>, LoadError>)
    ensures r.Success? <==> forall i :: 0 <= i < |tokens| ==> ParseInt(tokens[i]).Some?
    ensures r.Success? ==> |r.value| == |tokens|
    ensures r.Success? ==> forall i :: 0 <= i < |tokens| ==> ParseInt(tokens[i]) == Some(r.value[i])
    ensures r.Failure? ==> r.error.BadToken? && r.error.token in tokens && ParseInt(r.error.token).None?
  {
    if |tokens| == 0 then Success([])
    else
      match ParseInt(tokens[0])
      case None => Failure(BadToken(tokens[0]))
      case Some(v) =>
        match ParseAll(tokens[1..])
        case Failure(e) => Failure(e)
        case Success(vs) => Success([v] + vs)
  }

  /** `[c for c in parts if c != '']`. */
  function DropEmpty(parts: seq<string>): (r: seq<string>)
    ensures forall t :: t in r <==> t in parts && t != ""
    ensures (forall i :: 0 <= i < |parts| ==> parts[i] != "") ==> r == parts
  {
    if |parts| == 0 then []
    else if parts[0] == "" then DropEmpty(parts[1..])
    else [parts[0]] + DropEmpty(parts[1..])
  }

  function LooseTokensOf(lines: seq<string>): (r: seq<string>)
    ensures forall t :: t in r ==> t != "" && ',' !in t
  {
    if |lines| == 0 then []
    else DropEmpty(SplitOn(lines[0], ',')) + LooseTokensOf(lines[1..])
  }

  /** The tokens of the whitespace-and-comma reader: split on whitespace,
      then on commas, dropping empty pieces. */
  function LooseTokens(text: string): (r: seq<string>)
    ensures forall t :: t in r ==> IsWord(t) && ',' !in t
  {
    var r := LooseTokensOf(Split(text));
    assert forall t :: t in r ==> NoSpace(t) by {
      LooseTokensNoSpace(Split(text));
    }
    r
  }

  lemma LooseTokensNoSpace(lines: seq<string>)
    requires forall l :: l in lines ==> IsWord(l)
    ensures forall t :: t in LooseTokensOf(lines) ==> NoSpace(t)
  {
    if |lines| > 0 {
      assert IsWord(lines[0]) by { assert lines[0] in lines; }
      assert forall l :: l in lines[1..] ==> l in lines;
      var parts := SplitOn(lines[0], ',');
      forall p | p in parts
        ensures NoSpace(p)
      {
        JoinPartsNoSpace(parts, p, ',', lines[0]);
      }
      LooseTokensNoSpace(lines[1..]);
    }
  }

  /** A part of a comma split of a whitespace-free string is whitespace-free. */
  lemma JoinPartsNoSpace(parts: seq<string>, p: string, sep: char, s: string)
    requires Join([sep], parts) == s && NoSpace(s) && p in parts
    ensures NoSpace(p)
  {
    if |parts| > 1 && p != parts[0] {
      var rest := Join([sep], parts[1..]);
      assert s == parts[0] + [sep] + rest;
      assert rest == s[|parts[0]| + 1..];
      JoinPartsNoSpace(parts[1..], p, sep, rest);
    } else if |parts| > 1 {
      assert parts[0] == s[..|parts[0]|];
    }
  }

  /** Whitespace-and-comma CSV (tile movement, sprite unwalkables, tilemap
      layers, tilemap). */
  function DecodeCsvLoose(text: string): Result<seq<int>, LoadError> {
    ParseAll(LooseTokens(text))
  }

  /** Comma-only CSV (triggers, scaled tiles, smooth scrolling): every
      comma-separated piece goes to `int`, which strips its whitespace. */
  function DecodeCsvComma(text: string): Result<seq<int>, LoadError> {
    ParseAll(SplitOn(text, ','))
  }

  function Decimals(ns: seq<int>): (r: seq<string>)
    ensures |r| == |ns|
    ensures forall i :: 0 <= i < |ns| ==> r[i] == IntToString(ns[i])
  {
    if |ns| == 0 then [] else [IntToString(ns[0])] + Decimals(ns[1..])
  }

  /** A layer written as `n0,n1,...` on one line. */
  function EncodeCsv(ns: seq<int>): string {
    Join(",", Decimals(ns))
  }

  /** `int(str(n))` for every value of a row. */
  lemma {:induction false} ParseAllDecimals(ns: seq<int>)
    ensures ParseAll(Decimals(ns)) == Success(ns)
  {
    if |ns| == 0 {
      assert Decimals(ns) == [];
    } else {
      ParseAllDecimals(ns[1..]);
      ParseIntToString(ns[0]);
      assert Decimals(ns)[1..] == Decimals(ns[1..]);
      assert ns == [ns[0]] + ns[1..];
    }
  }

  lemma DecimalsAreWords(ns: seq<int>)
    ensures forall i :: 0 <= i < |ns| ==> IsWord(Decimals(ns)[i]) && ',' !in Decimals(ns)[i]
  {
    forall i | 0 <= i < |ns|
      ensures IsWord(Decimals(ns)[i]) && ',' !in Decimals(ns)[i]
    {
      IntToStringNoSpace(ns[i]);
    }
  }

  lemma CommaJoinIsWord(strs: seq<string>)
    requires |strs| > 0
    requires forall i :: 0 <= i < |strs| ==> IsWord(strs[i])
    ensures IsWord(Join(",", strs))
  {
    if |strs| > 1 {
      CommaJoinIsWord(strs[1..]);
      NoSpaceConcat(strs[0], ",");
      NoSpaceConcat(strs[0] + ",", Join(",", strs[1..]));
    }
  }

  /** The comma-only reader reads back what `EncodeCsv` wrote. */
  lemma {:induction false} CommaCsvRoundTrip(ns: seq<int>)
    requires |ns| > 0
    ensures DecodeCsvComma(EncodeCsv(ns)) == Success(ns)
  {
    var strs := Decimals(ns);
    DecimalsAreWords(ns);
    SplitOnJoin(strs, ',');
    assert SplitOn(EncodeCsv(ns), ',') == strs;
    ParseAllDecimals(ns);
  }

  /** The whitespace-and-comma reader reads back what `EncodeCsv` wrote. */
  lemma LooseCsvRoundTrip(ns: seq<int>)
    ensures DecodeCsvLoose(EncodeCsv(ns)) == Success(ns)
  {
    LooseTokensRow(ns);
    ParseAllDecimals(ns);
  }

  /** The tokens of one written row are its decimals, empty row included. */
  lemma {:induction false} LooseTokensRow(ns: seq<int>)
    ensures LooseTokens(EncodeCsv(ns)) == Decimals(ns)
  {
    var strs := Decimals(ns);
    if |ns| == 0 {
      assert EncodeCsv(ns) == "";
    } else {
      DecimalsAreWords(ns);
      var text := Join(",", strs);
      CommaJoinIsWord(strs);
      LooseTokensWord(text);
      SplitOnJoin(strs, ',');
      assert DropEmpty(strs) == strs;
    }
  }

  /** Where the two dialects part: a trailing comma (as Tiled writes after
      every row but the last) is dropped by the whitespace-and-comma reader but makes
      the comma-only reader call `int('')`, a `ValueError`. */
  lemma TrailingCommaDialects(ns: seq<int>)
    requires |ns| > 0
    ensures DecodeCsvLoose(EncodeCsv(ns) + ",") == Success(ns)
    ensures DecodeCsvComma(EncodeCsv(ns) + ",") == Failure(BadToken(""))
  {
    TrailingCommaLoose(ns);
    TrailingCommaComma(ns);
  }

  /** Splitting a row with a trailing comma on `,` leaves an empty last
      piece. */
  lemma TrailingCommaSplit(ns: seq<int>)
    requires |ns| > 0
    ensures SplitOn(Join(",", Decimals(ns)) + ",", ',') == Decimals(ns) + [""]
  {
    var strs := Decimals(ns);
    DecimalsAreWords(ns);
    var text := Join(",", strs) + ",";
    JoinAppendOne(",", strs, "");
    assert text == Join(",", strs + [""]);
    assert forall i :: 0 <= i < |strs| + 1 ==> ',' !in (strs + [""])[i];
    SplitOnJoin(strs + [""], ',');
  }

  /** The whitespace-and-comma reader drops the empty last piece. */
  lemma TrailingCommaLoose(ns: seq<int>)
    requires |ns| > 0
    ensures DecodeCsvLoose(EncodeCsv(ns) + ",") == Success(ns)
  {
    LooseTokensRowComma(ns);
    ParseAllDecimals(ns);
  }

  /** The tokens of one written row followed by its comma are the row's
      decimals, empty row included. */
  lemma {:induction false} LooseTokensRowComma(ns: seq<int>)
    ensures LooseTokens(EncodeCsv(ns) + ",") == Decimals(ns)
  {
    var strs := Decimals(ns);
    var text := EncodeCsv(ns) + ",";
    if |ns| == 0 {
      assert text == "" + [','] + "";
      assert IsWord(text);
      LooseTokensWord(text);
      SplitOnAppend("", ',', "");
      DropEmptyFilter([""], [""]);
    } else {
      DecimalsAreWords(ns);
      TrailingCommaSplit(ns);
      CommaJoinIsWord(strs);
      NoSpaceConcat(Join(",", strs), ",");
      LooseTokensWord(text);
      DropEmptyTrailing(strs);
    }
  }

  /** The comma-only reader hands the empty last piece to `int()`. */
  lemma TrailingCommaComma(ns: seq<int>)
    requires |ns| > 0
    ensures DecodeCsvComma(EncodeCsv(ns) + ",") == Failure(BadToken(""))
  {
    var strs := Decimals(ns);
    TrailingCommaSplit(ns);
    ParseAllDecimals(ns);
    ParseAllFirstFailure(strs, "");
  }

  lemma DropEmptyTrailing(strs: seq<string>)
    requires forall i :: 0 <= i < |strs| ==> strs[i] != ""
    ensures DropEmpty(strs + [""]) == strs
  {
    if |strs| > 0 {
      assert (strs + [""])[1..] == strs[1..] + [""];
      DropEmptyTrailing(strs[1..]);
    }
  }

  lemma ParseAllFirstFailure(good: seq<string>, bad: string)
    requires forall i :: 0 <= i < |good| ==> ParseInt(good[i]).Some?
    requires ParseInt(bad).None?
    ensures ParseAll(good + [bad]) == Failure(BadToken(bad))
  {
    if |good| > 0 {
      assert (good + [bad])[1..] == good[1..] + [bad];
      ParseAllFirstFailure(good[1..], bad);
    }
  }

  /** The filter works piece by piece: it distributes over concatenation
      and keeps a single piece exactly when it is not empty. */
  lemma {:induction false} DropEmptyFilter(a: seq<string>, b: seq<string>)
    ensures DropEmpty(a + b) == DropEmpty(a) + DropEmpty(b)
    ensures forall p :: DropEmpty([p]) == (if p == "" then [] else [p])
    decreases |a|
  {
    if |a| == 0 {
      assert a + b == b;
    } else {
      assert (a + b)[1..] == a[1..] + b;
      DropEmptyFilter(a[1..], b);
    }
    forall p
      ensures DropEmpty([p]) == (if p == "" then [] else [p])
    {
      assert [p][1..] == [];
    }
  }

  lemma {:induction false} LooseTokensOfAppend(a: seq<string>, b: seq<string>)
    ensures LooseTokensOf(a + b) == LooseTokensOf(a) + LooseTokensOf(b)
    decreases |a|
  {
    if |a| == 0 {
      assert a + b == b;
    } else {
      assert (a + b)[0] == a[0];
      assert (a + b)[1..] == a[1..] + b;
      LooseTokensOfAppend(a[1..], b);
    }
  }

  /** Whitespace separates tokens: the tokens of `a + [c] + b` are those of
      `a` followed by those of `b`. */
  lemma LooseTokensSpace(a: string, c: char, b: string)
    requires IsSpace(c)
    ensures LooseTokens(a + [c] + b) == LooseTokens(a) + LooseTokens(b)
  {
    SplitSpaceCons(a, c, b);
    LooseTokensOfAppend(Split(a), Split(b));
  }

  /** Within one whitespace-free word the tokens are the non-empty comma
      pieces. With `LooseTokensSpace` this fixes the tokens of any text. */
  lemma LooseTokensWord(w: string)
    requires IsWord(w)
    ensures LooseTokens(w) == DropEmpty(SplitOn(w, ','))
  {
    SplitWord(w);
    assert [w][1..] == [];
    assert LooseTokensOf([w]) == DropEmpty(SplitOn(w, ',')) + LooseTokensOf([]);
  }

  lemma {:induction false} DecimalsAppend(a: seq<int>, b: seq<int>)
    ensures Decimals(a + b) == Decimals(a) + Decimals(b)
  {
    if |a| > 0 {
      assert (a + b)[0] == a[0] && (a + b)[1..] == a[1..] + b;
      DecimalsAppend(a[1..], b);
      PrependAssoc(Decimals(a + b), [IntToString(a[0])], Decimals(a[1..] + b),
                   Decimals(a), Decimals(a[1..]), Decimals(b));
    } else {
      assert a + b == b;
    }
  }

  /** The rows of a layer as Tiled writes them inside `<data>`: every row's
      values joined by commas, each row on its own line, a comma closing
      every row but the last. */
  function RowLines(rows: seq<seq<int>>): string
    decreases |rows|
  {
    if |rows| == 0 then ""
    else if |rows| == 1 then EncodeCsv(rows[0]) + "\n"
    else EncodeCsv(rows[0]) + ",\n" + RowLines(rows[1..])
  }

  /** The whole `<data encoding="csv">` text: a newline after the opening
      tag, then the rows. */
  function EncodeCsvRows(rows: seq<seq<int>>): string {
    "\n" + RowLines(rows)
  }

  /** Every row of the layer holds at least one tile. */
  predicate NonEmptyRows(rows: seq<seq<int>>) {
    forall i :: 0 <= i < |rows| ==> |rows[i]| > 0
  }

  lemma {:induction false} LooseRowLines(rows: seq<seq<int>>)
    ensures LooseTokens(RowLines(rows)) == Decimals(Flatten(rows))
    decreases |rows|, 1
  {
    if |rows| == 0 {
      assert RowLines(rows) == "";
    } else if |rows| == 1 {
      var e := EncodeCsv(rows[0]);
      assert RowLines(rows) == e + ['\n'] + "";
      LooseTokensSpace(e, '\n', "");
      LooseTokensRow(rows[0]);
      assert Flatten(rows) == rows[0] + Flatten(rows[1..]);
      assert Flatten(rows) == rows[0];
    } else {
      LooseRowLinesStep(rows);
    }
  }

  lemma {:induction false} LooseRowLinesStep(rows: seq<seq<int>>)
    requires |rows| > 1
    ensures LooseTokens(RowLines(rows)) == Decimals(Flatten(rows))
    decreases |rows|, 0
  {
    var e := EncodeCsv(rows[0]) + ",";
    var rest := RowLines(rows[1..]);
    assert RowLines(rows) == e + ['\n'] + rest;
    LooseTokensSpace(e, '\n', rest);
    LooseTokensRowComma(rows[0]);
    LooseRowLines(rows[1..]);
    assert Flatten(rows) == rows[0] + Flatten(rows[1..]);
    DecimalsAppend(rows[0], Flatten(rows[1..]));
  }

  /** The whitespace-and-comma reader reads a whole written layer back as
      its rows, concatenated in order. */
  lemma LooseCsvRowsRoundTrip(rows: seq<seq<int>>)
    ensures DecodeCsvLoose(EncodeCsvRows(rows)) == Success(Flatten(rows))
  {
    assert EncodeCsvRows(rows) == "" + ['\n'] + RowLines(rows);
    LooseTokensSpace("", '\n', RowLines(rows));
    assert LooseTokens("") == [];
    LooseRowLines(rows);
    ParseAllDecimals(Flatten(rows));
  }

  /** The comma pieces `ts` are the decimals `ds` up to surrounding
      whitespace, which `int` strips. */
  predicate Padded(ts: seq<string>, ds: seq<string>) {
    |ts| == |ds| && forall i :: 0 <= i < |ts| ==> Strip(ts[i]) == ds[i]
  }

  lemma PaddedAppend(ts: seq<string>, ds: seq<string>, us: seq<string>, es: seq<string>)
    requires Padded(ts, ds) && Padded(us, es)
    ensures Padded(ts + us, ds + es)
  {
    forall i | 0 <= i < |ts + us|
      ensures Strip((ts + us)[i]) == (ds + es)[i]
    {
      if i >= |ts| {
        assert (ts + us)[i] == us[i - |ts|];
      }
    }
  }

  /** One value with whitespace around it is one comma piece, which strips
      to the value. */
  lemma CommaPieceOne(lead: string, d: string, trail: string)
    requires AllSpace(lead) && AllSpace(trail) && IsWord(d) && ',' !in d
    ensures SplitOn(lead + d + trail, ',') == [lead + d + trail]
    ensures Strip(lead + d + trail) == d
  {
    var s := lead + d + trail;
    forall k | 0 <= k < |s|
      ensures s[k] != ','
    {
      if k < |lead| {
        assert s[k] == lead[k];
      } else if k < |lead| + |d| {
        assert s[k] == d[k - |lead|];
      } else {
        assert s[k] == trail[k - |lead| - |d|];
      }
    }
    StripPadded(lead, d, trail);
  }

  /** One row with whitespace `lead` before it and `trail` after it splits
      on commas into its decimals, padded. */
  lemma {:induction false} CommaRowPieces(lead: string, strs: seq<string>, trail: string)
    requires AllSpace(lead) && AllSpace(trail) && |strs| > 0
    requires forall i :: 0 <= i < |strs| ==> IsWord(strs[i]) && ',' !in strs[i]
    ensures Padded(SplitOn(lead + Join(",", strs) + trail, ','), strs)
    decreases |strs|
  {
    var d := strs[0];
    if |strs| == 1 {
      assert Join(",", strs) == d;
      CommaPieceOne(lead, d, trail);
    } else {
      CommaRowsStep(lead, strs, trail);
    }
  }

  lemma {:induction false} CommaRowsStep(lead: string, strs: seq<string>, trail: string)
    requires AllSpace(lead) && AllSpace(trail) && |strs| > 1
    requires forall i :: 0 <= i < |strs| ==> IsWord(strs[i]) && ',' !in strs[i]
    ensures Padded(SplitOn(lead + Join(",", strs) + trail, ','), strs)
    decreases |strs|, 0
  {
    var d := strs[0];
    var rest := Join(",", strs[1..]);
    var s := lead + d + "";
    assert lead + Join(",", strs) + trail == s + [','] + ("" + rest + trail);
    SplitOnAppend(s, ',', "" + rest + trail);
    CommaPieceOne(lead, d, "");
    CommaRowPieces("", strs[1..], trail);
    PaddedAppend([s], [d], SplitOn("" + rest + trail, ','), strs[1..]);
    assert [d] + strs[1..] == strs;
  }

  /** The written rows, after whitespace `lead`, split on commas into every
      value's decimal, padded. */
  lemma {:induction false} CommaRowsPieces(lead: string, rows: seq<seq<int>>)
    requires AllSpace(lead) && |rows| > 0 && NonEmptyRows(rows)
    ensures Padded(SplitOn(lead + RowLines(rows), ','), Decimals(Flatten(rows)))
    decreases |rows|, 1
  {
    if |rows| == 1 {
      var strs := Decimals(rows[0]);
      DecimalsAreWords(rows[0]);
      assert lead + RowLines(rows) == lead + Join(",", strs) + "\n";
      CommaRowPieces(lead, strs, "\n");
      assert Flatten(rows) == rows[0] + Flatten(rows[1..]);
      assert Flatten(rows) == rows[0];
    } else {
      CommaRowsPiecesStep(lead, rows);
    }
  }

  lemma {:induction false} CommaRowsPiecesStep(lead: string, rows: seq<seq<int>>)
    requires AllSpace(lead) && |rows| > 1 && NonEmptyRows(rows)
    ensures Padded(SplitOn(lead + RowLines(rows), ','), Decimals(Flatten(rows)))
    decreases |rows|, 0
  {
    var strs := Decimals(rows[0]);
    DecimalsAreWords(rows[0]);
    var rest := RowLines(rows[1..]);
    var head := lead + Join(",", strs) + "";
    RowLinesCons(lead, rows);
    SplitOnAppend(head, ',', "\n" + rest);
    CommaRowPieces(lead, strs, "");
    NonEmptyRowsTail(rows);
    CommaRowsPieces("\n", rows[1..]);
    PaddedAppend(SplitOn(head, ','), strs, SplitOn("\n" + rest, ','), Decimals(Flatten(rows[1..])));
    FlattenDecimalsCons(rows);
  }

  /** A layer of several rows is its first row, a comma, and the rest on the
      next line. */
  lemma RowLinesCons(lead: string, rows: seq<seq<int>>)
    requires |rows| > 1
    ensures lead + RowLines(rows)
         == (lead + Join(",", Decimals(rows[0])) + "") + [','] + ("\n" + RowLines(rows[1..]))
  {
    var e := Join(",", Decimals(rows[0]));
    var rest := RowLines(rows[1..]);
    assert RowLines(rows) == e + ",\n" + rest;
    assert ",\n" == [','] + "\n";
    RegroupAround(lead, e, ',', "\n", rest);
  }

  lemma RegroupAround<T>(a: seq<T>, e: seq<T>, c: T, n: seq<T>, rest: seq<T>)
    ensures a + (e + ([c] + n) + rest) == (a + e + []) + [c] + (n + rest)
  {
  }

  lemma NonEmptyRowsTail(rows: seq<seq<int>>)
    requires |rows| > 0 && NonEmptyRows(rows)
    ensures NonEmptyRows(rows[1..])
  {
    assert forall i :: 0 <= i < |rows[1..]| ==> rows[1..][i] == rows[i + 1];
  }

  lemma FlattenDecimalsCons(rows: seq<seq<int>>)
    requires |rows| > 0
    ensures Decimals(Flatten(rows)) == Decimals(rows[0]) + Decimals(Flatten(rows[1..]))
  {
    assert Flatten(rows) == rows[0] + Flatten(rows[1..]);
    DecimalsAppend(rows[0], Flatten(rows[1..]));
  }

  /** Padded decimals parse to their values. */
  lemma ParseAllPadded(ts: seq<string>, ns: seq<int>)
    requires Padded(ts, Decimals(ns))
    ensures ParseAll(ts) == Success(ns)
  {
    forall i | 0 <= i < |ts|
      ensures ParseInt(ts[i]) == Some(ns[i])
    {
      PaddedParse(ts[i], ns[i]);
    }
    ParseAllPointwise(ts, ns);
  }

  /** Tokens that each parse to the matching value parse together to all
      the values. */
  lemma {:induction false} ParseAllPointwise(ts: seq<string>, ns: seq<int>)
    requires |ts| == |ns|
    requires forall i :: 0 <= i < |ts| ==> ParseInt(ts[i]) == Some(ns[i])
    ensures ParseAll(ts) == Success(ns)
    decreases |ts|
  {
    if |ts| > 0 {
      assert ParseInt(ts[0]) == Some(ns[0]);
      ParseAllPointwise(ts[1..], ns[1..]);
      assert [ns[0]] + ns[1..] == ns;
    }
  }

  lemma PaddedParse(t: string, n: int)
    requires Strip(t) == IntToString(n)
    ensures ParseInt(t) == Some(n)
  {
    ParseIntToString(n);
    DecimalStrip(n);
    ParseIntStrip(t, IntToString(n));
  }

  lemma DecimalStrip(n: int)
    ensures Strip(IntToString(n)) == IntToString(n)
  {
    IntToStringNoSpace(n);
    StripPadded("", IntToString(n), "");
    assert "" + IntToString(n) + "" == IntToString(n);
  }

  /** The comma-only reader reads a whole written layer back as its rows,
      concatenated in order: the newlines around each row are whitespace
      that `int` strips from the first and last piece of the row. */
  lemma CommaCsvRowsRoundTrip(rows: seq<seq<int>>)
    requires |rows| > 0 && NonEmptyRows(rows)
    ensures DecodeCsvComma(EncodeCsvRows(rows)) == Success(Flatten(rows))
  {
    CommaRowsPieces("\n", rows);
    ParseAllPadded(SplitOn(EncodeCsvRows(rows), ','), Flatten(rows));
  }

  // ------------------------------------------------- little-endian words

  /** `struct.unpack('<I', b0 b1 b2 b3)`. */
  function U32(b0: byte, b1: byte, b2: byte, b3: byte): int {
    b0 as int + 0x100 * b1 as int + 0x1_0000 * b2 as int + 0x100_0000 * b3 as int
  }

  function Words(bs: seq<byte>): (r: seq<int>)
    requires |bs| % 4 == 0
    ensures |r| == |bs| / 4
  {
    if |bs| == 0 then [] else [U32(bs[0], bs[1], bs[2], bs[3])] + Words(bs[4..])
  }

  lemma {:induction false} WordsAt(bs: seq<byte>, i: nat)
    requires |bs| % 4 == 0 && i < |bs| / 4
    ensures Words(bs)[i] == U32(bs[4 * i], bs[4 * i + 1], bs[4 * i + 2], bs[4 * i + 3])
  {
    if i > 0 {
      WordsAt(bs[4..], i - 1);
    }
  }

  /** `[x[0] for x in struct.iter_unpack('<I', bs)]`: one unsigned value per
      four bytes, least significant byte first; `struct.error` when the
      byte count is not a multiple of four. */
  function UnpackLE32(bs: seq<byte>): (r: Result<seq<int>, LoadError>)
    ensures r.Success? <==> |bs| % 4 == 0
    ensures r.Failure? ==> r.error == BadByteCount(|bs|)
    ensures r.Success? ==> |r.value| == |bs| / 4
    ensures r.Success? ==> forall i :: 0 <= i < |r.value| ==>
      r.value[i] == U32(bs[4 * i], bs[4 * i + 1], bs[4 * i + 2], bs[4 * i + 3])
  {
    if |bs| % 4 == 0 then
      assert forall i :: 0 <= i < |bs| / 4 ==> Words(bs)[i] == U32(bs[4 * i], bs[4 * i + 1], bs[4 * i + 2], bs[4 * i + 3]) by {
        forall i | 0 <= i < |bs| / 4 {
          WordsAt(bs, i);
        }
      }
      Success(Words(bs))
    else Failure(BadByteCount(|bs|))
  }

  /** Each unpacked value is an unsigned 32-bit integer. */
  lemma UnpackedInRange(bs: seq<byte>)
    requires UnpackLE32(bs).Success?
    ensures forall v :: v in UnpackLE32(bs).value ==> 0 <= v < TWO_32
  {
  }

  /** `struct.pack('<I', v)` for `0 <= v < 2^32`. */
  function PackU32(v: int): (r: seq<byte>)
    requires 0 <= v < TWO_32
    ensures |r| == 4
  {
    var q1 := v / 0x100;
    var q2 := q1 / 0x100;
    assert q2 < 0x1_0000;
    [v % 0x100, q1 % 0x100, q2 % 0x100, q2 / 0x100]
  }

  function PackLE32(vs: seq<int>): (r: seq<byte>)
    requires forall v :: v in vs ==> 0 <= v < TWO_32
    ensures |r| == 4 * |vs|
  {
    if |vs| == 0 then []
    else
      assert vs[0] in vs && forall v :: v in vs[1..] ==> v in vs;
      PackU32(vs[0]) + PackLE32(vs[1..])
  }

  lemma PackU32RoundTrip(v: int)
    requires 0 <= v < TWO_32
    ensures var b := PackU32(v); U32(b[0], b[1], b[2], b[3]) == v
  {
    var q1 := v / 0x100;
    var q2 := q1 / 0x100;
    assert v == 0x100 * q1 + v % 0x100;
    assert q1 == 0x100 * q2 + q1 % 0x100;
    assert q2 == 0x100 * (q2 / 0x100) + q2 % 0x100;
  }

  lemma {:induction false} WordsPack(vs: seq<int>)
    requires forall v :: v in vs ==> 0 <= v < TWO_32
    ensures |PackLE32(vs)| % 4 == 0 && Words(PackLE32(vs)) == vs
  {
    if |vs| > 0 {
      assert vs[0] in vs && forall v :: v in vs[1..] ==> v in vs;
      var bs := PackLE32(vs);
      assert vs == [vs[0]] + vs[1..];
      PackCons(vs[0], vs[1..]);
      WordsPack(vs[1..]);
      PackU32RoundTrip(vs[0]);
      assert Words(bs) == [vs[0]] + Words(bs[4..]);
      assert vs == [vs[0]] + vs[1..];
    }
  }

  /** Packing a list packs its head into the first four bytes. */
  lemma PackCons(h: int, t: seq<int>)
    requires 0 <= h < TWO_32 && forall v :: v in t ==> 0 <= v < TWO_32
    ensures var bs, head := PackLE32([h] + t), PackU32(h);
      && |bs| % 4 == 0 && bs[4..] == PackLE32(t)
      && bs[0] == head[0] && bs[1] == head[1] && bs[2] == head[2] && bs[3] == head[3]
  {
    var vs := [h] + t;
    assert vs[0] == h && vs[1..] == t;
    assert PackLE32(vs) == PackU32(h) + PackLE32(t);
  }

  /** Unpacking what was packed gives the values back. */
  lemma UnpackPack(vs: seq<int>)
    requires forall v :: v in vs ==> 0 <= v < TWO_32
    ensures UnpackLE32(PackLE32(vs)) == Success(vs)
  {
    WordsPack(vs);
  }

  /** The two payload encodings of one grid of tile indices decode alike. */
  lemma EncodingsAgree(ns: seq<int>)
    requires |ns| > 0
    requires forall v :: v in ns ==> 0 <= v < TWO_32
    ensures DecodeCsvLoose(EncodeCsv(ns)) == UnpackLE32(PackLE32(ns))
    ensures DecodeCsvComma(EncodeCsv(ns)) == UnpackLE32(PackLE32(ns))
  {
    LooseCsvRoundTrip(ns);
    CommaCsvRoundTrip(ns);
    UnpackPack(ns);
  }

  // ------------------------------------------------------ layer decoding

  function DecodeCsv(loader: Loader, text: string): Result<seq<int>, LoadError> {
    if loader.CommaWithZlib? then DecodeCsvComma(text) else DecodeCsvLoose(text)
  }

  /** Decodes one `<data>` payload by its declared encoding. `inflate` is
      `zlib.decompress(base64.b64decode(text))`, `None` when either raises. */
  function DecodeLayer(loader: Loader, layer: LayerRecord, inflate: string -> Option<seq<byte>>): (r: Result<seq<int>, LoadError>)
    ensures layer.encoding.None? ==> r == Failure(MissingEncoding)
    ensures layer.encoding == Some("csv") ==> r == DecodeCsv(loader, layer.text)
    ensures layer.encoding.Some? && layer.encoding != Some("csv") && (loader.LooseCsvOnly? || layer.encoding != Some("base64") || layer.compression != Some("zlib")) ==>
      r == Failure(UnsupportedEncoding)
    ensures !loader.LooseCsvOnly? && layer.encoding == Some("base64") && layer.compression == Some("zlib") ==>
      r == (if inflate(layer.text).None? then Failure(InflateFailed) else UnpackLE32(inflate(layer.text).value))
  {
    match layer.encoding
    case None => Failure(MissingEncoding)
    case Some(enc) =>
      if enc == "csv" then DecodeCsv(loader, layer.text)
      else if !loader.LooseCsvOnly? && enc == "base64" && (if layer.compression.Some? then layer.compression.value else "none") == "zlib" then
        match inflate(layer.text)
        case None => Failure(InflateFailed)
        case Some(bs) => UnpackLE32(bs)
      else Failure(UnsupportedEncoding)
  }

  /** The names of the layers, as the keys `layer_data` ends up with. */
  function Names(layers: seq<LayerRecord>): (ns: set<string>)
    ensures forall i :: 0 <= i < |layers| ==> layers[i].name in ns
  {
    if |layers| == 0 then {}
    else
      var n := |layers| - 1;
      assert forall i :: 0 <= i < n ==> layers[..n][i] == layers[i];
      Names(layers[..n]) + {layers[n].name}
  }

  /** Only the layers' own names are keys. */
  lemma {:induction false} NamesOnly(layers: seq<LayerRecord>, name: string)
    requires name in Names(layers)
    ensures exists i :: 0 <= i < |layers| && layers[i].name == name
  {
    var n := |layers| - 1;
    if name != layers[n].name {
      NamesOnly(layers[..n], name);
      var i :| 0 <= i < n && layers[..n][i].name == name;
      assert layers[i].name == name;
    }
  }

  /** The `layer_data` dictionary: each layer decoded (by `decode`, in
      document order, the first failure aborting the load) and stored
      under its name, a later layer with the same name replacing an
      earlier one. */
  function LoadLayers(layers: seq<LayerRecord>, decode: LayerRecord -> Result<seq<int>, LoadError>): (r: Result<map<string, seq<int>>, LoadError>)
    ensures r.Success? <==> forall i :: 0 <= i < |layers| ==> decode(layers[i]).Success?
    ensures r.Success? ==> r.value.Keys == Names(layers)
    ensures r.Success? ==> forall i :: 0 <= i < |layers| && (forall j :: i < j < |layers| ==> layers[j].name != layers[i].name) ==>
      r.value[layers[i].name] == decode(layers[i]).value
    decreases |layers|
  {
    if |layers| == 0 then Success(map[])
    else
      var n := |layers| - 1;
      var prefix := layers[..n];
      assert forall i :: 0 <= i < n ==> prefix[i] == layers[i];
      match LoadLayers(prefix, decode)
      case Failure(e) => Failure(e)
      case Success(m) =>
        match decode(layers[n])
        case Failure(e) => Failure(e)
        case Success(data) =>
          Success(m[layers[n].name := data])
  }

  /** The map loader of the copies that keep every layer. */
  function LoadMapLayers(loader: Loader, layers: seq<LayerRecord>, inflate: string -> Option<seq<byte>>): Result<map<string, seq<int>>, LoadError> {
    LoadLayers(layers, l => DecodeLayer(loader, l, inflate))
  }

  /** The single-layer loader of the first tilemap demo: more than one
      layer is refused, no layer at all fails on `layers[0]`, and the one
      layer is read as whitespace-and-comma CSV whatever its encoding. */
  function LoadSingleLayer(layers: seq<LayerRecord>): (r: Result<seq<int>, LoadError>)
    ensures |layers| > 1 <==> r == Failure(MultipleLayers)
    ensures |layers| == 0 <==> r == Failure(NoLayers)
    ensures |layers| == 1 ==> r == DecodeCsvLoose(layers[0].text)
  {
    if |layers| > 1 then Failure(MultipleLayers)
    else if |layers| == 0 then Failure(NoLayers)
    else DecodeCsvLoose(layers[0].text)
  }

  // ---------------------------------------------------------- the atlas

  /** A `subsurface` of tileset image number `sheet`. */
  datatype TileImage = TileImage(sheet: nat, x: int, y: int, width: int, height: int)

  /** The size in pixels of one tileset image. */
  datatype Sheet = Sheet(width: nat, height: nat)

  lemma CellInSheet(c: int, n: nat, t: pos, size: nat)
    requires 0 <= c < n && n == size / t
    ensures 0 <= c * t && c * t + t <= size
  {
    assert size == n * t + size % t;
    MulAtLeast(n - c, t);
    assert (n - c) * t == n * t - c * t;
  }

  /** Cuts at cells inside the `W // tw` × `H // th` grid lie inside the
      sheet. */
  lemma CutsInSheet(cells: seq<Cell>, ts: seq<TileImage>, s: Sheet, tw: pos, th: pos)
    requires |ts| == |cells|
    requires forall k :: 0 <= k < |cells| ==>
      0 <= cells[k].x < s.width / tw && 0 <= cells[k].y < s.height / th
    requires forall k :: 0 <= k < |ts| ==> ts[k].x == cells[k].x * tw && ts[k].y == cells[k].y * th
    ensures forall k :: 0 <= k < |ts| ==>
      0 <= ts[k].x && ts[k].x + tw <= s.width && 0 <= ts[k].y && ts[k].y + th <= s.height
  {
    forall k | 0 <= k < |ts|
      ensures 0 <= ts[k].x && ts[k].x + tw <= s.width && 0 <= ts[k].y && ts[k].y + th <= s.height
    {
      CellInSheet(cells[k].x, s.width / tw, tw, s.width);
      CellInSheet(cells[k].y, s.height / th, th, s.height);
    }
  }

  /** The tiles cut from one sheet: `for y in range(H // th): for x in
      range(W // tw)`, one `subsurface` per cell. Every cut lies inside the
      sheet, so no `subsurface` call is refused. */
  function SliceSheet(sheet: nat, s: Sheet, tw: pos, th: pos): (ts: seq<TileImage>)
    ensures |ts| == (s.height / th) * (s.width / tw)
    ensures forall k :: 0 <= k < |ts| ==> ts[k].sheet == sheet && ts[k].width == tw && ts[k].height == th
    ensures forall k :: 0 <= k < |ts| ==>
      0 <= ts[k].x && ts[k].x + tw <= s.width && 0 <= ts[k].y && ts[k].y + th <= s.height
  {
    var cols, rows := s.width / tw, s.height / th;
    var cells := RowMajor(0, cols, 0, rows);
    var ts := seq(|cells|, k requires 0 <= k < |cells| => TileImage(sheet, cells[k].x * tw, cells[k].y * th, tw, th));
    assert |ts| == rows * cols by {
      assert Span(0, cols) == cols && Span(0, rows) == rows;
    }
    assert forall k :: 0 <= k < |cells| ==> 0 <= cells[k].x < cols && 0 <= cells[k].y < rows by {
      forall k | 0 <= k < |cells|
        ensures 0 <= cells[k].x < cols && 0 <= cells[k].y < rows
      {
        assert cells[k] in cells;
      }
    }
    CutsInSheet(cells, ts, s, tw, th);
    ts
  }

  /** Cut `k` of a sheet is column `k % cols`, row `k // cols`. */
  lemma SliceSheetAt(sheet: nat, s: Sheet, tw: pos, th: pos, k: int)
    requires 0 <= k < |SliceSheet(sheet, s, tw, th)|
    ensures s.width / tw > 0
    ensures SliceSheet(sheet, s, tw, th)[k] ==
      TileImage(sheet, (k % (s.width / tw)) * tw, (k / (s.width / tw)) * th, tw, th)
  {
    RowMajorAt(0, s.width / tw, 0, s.height / th, k);
  }

  function SheetTiles(s: Sheet, tw: pos, th: pos): nat {
    (s.height / th) * (s.width / tw)
  }

  function TileCount(sheets: seq<Sheet>, tw: pos, th: pos): nat {
    if |sheets| == 0 then 0
    else TileCount(sheets[..|sheets| - 1], tw, th) + SheetTiles(sheets[|sheets| - 1], tw, th)
  }

  /** The `tiles` list: entry 0 is `None` ("draw nothing"), then the tiles
      of each tileset in load order, so each tileset owns a contiguous run
      of indices starting after those of the tilesets before it. */
  function BuildTiles(sheets: seq<Sheet>, tw: pos, th: pos): (tiles: seq<Option<TileImage>>)
    ensures |tiles| == 1 + TileCount(sheets, tw, th)
    ensures tiles[0] == None
    ensures forall k :: 1 <= k < |tiles| ==> tiles[k].Some? && tiles[k].value.sheet < |sheets|
    ensures |sheets| > 0 ==> var last := |sheets| - 1; var first := 1 + TileCount(sheets[..last], tw, th);
      forall k :: first <= k < |tiles| ==> tiles[k] == Some(SliceSheet(last, sheets[last], tw, th)[k - first])
    decreases |sheets|
  {
    if |sheets| == 0 then [None]
    else
      var last := |sheets| - 1;
      var init := sheets[..last];
      var prev := BuildTiles(init, tw, th);
      var cut := SliceSheet(last, sheets[last], tw, th);
      assert TileCount(sheets, tw, th) == TileCount(init, tw, th) + |cut|;
      AppendSheet(prev, cut, last);
      prev + Somes(cut)
  }

  /** Appending the run of tileset `last` after a list that holds `None`
      and then tiles of earlier tilesets only. */
  lemma AppendSheet(prev: seq<Option<TileImage>>, cut: seq<TileImage>, last: nat)
    requires |prev| > 0 && prev[0] == None
    requires forall k :: 1 <= k < |prev| ==> prev[k].Some? && prev[k].value.sheet < last
    requires forall k :: 0 <= k < |cut| ==> cut[k].sheet == last
    ensures |prev + Somes(cut)| == |prev| + |cut| && (prev + Somes(cut))[0] == None
    ensures forall k :: 1 <= k < |prev + Somes(cut)| ==>
      (prev + Somes(cut))[k].Some? && (prev + Somes(cut))[k].value.sheet < last + 1
    ensures forall k :: |prev| <= k < |prev + Somes(cut)| ==> (prev + Somes(cut))[k] == Some(cut[k - |prev|])
  {
    AppendRun(prev, cut);
  }

  /** The tile list of a loaded map: `None` first, images after. */
  predicate TileList(tiles: seq<Option<TileImage>>) {
    |tiles| > 0 && tiles[0].None? && forall k :: 1 <= k < |tiles| ==> tiles[k].Some?
  }

  function Somes<T>(xs: seq<T>): (r: seq<Option<T>>)
    ensures |r| == |xs|
    ensures forall k :: 0 <= k < |xs| ==> r[k] == Some(xs[k])
  {
    seq(|xs|, k requires 0 <= k < |xs| => Some(xs[k]))
  }

  lemma AppendRun<T>(prev: seq<Option<T>>, cut: seq<T>)
    ensures |prev + Somes(cut)| == |prev| + |cut|
    ensures forall k :: 0 <= k < |prev| ==> (prev + Somes(cut))[k] == prev[k]
    ensures forall k :: |prev| <= k < |prev| + |cut| ==> (prev + Somes(cut))[k] == Some(cut[k - |prev|])
  {
  }

  /** Loading one more tileset appends its tiles and leaves the indices of
      the earlier tiles alone. */
  lemma BuildTilesPrefix(sheets: seq<Sheet>, tw: pos, th: pos)
    requires |sheets| > 0
    ensures var init := sheets[..|sheets| - 1];
      && 1 + TileCount(init, tw, th) <= |BuildTiles(sheets, tw, th)|
      && BuildTiles(sheets, tw, th)[..1 + TileCount(init, tw, th)] == BuildTiles(init, tw, th)
  {
  }

  /** The tiles list built from runs of cuts already made: `None`, then
      each run in order. */
  function Atlas(cuts: seq<seq<TileImage>>): seq<Option<TileImage>>
    decreases |cuts|
  {
    if |cuts| == 0 then [None] else Atlas(cuts[..|cuts| - 1]) + Somes(cuts[|cuts| - 1])
  }

  /** The number of cuts in all runs together. */
  function Total(cuts: seq<seq<TileImage>>): nat
    decreases |cuts|
  {
    if |cuts| == 0 then 0 else Total(cuts[..|cuts| - 1]) + |cuts[|cuts| - 1]|
  }

  lemma {:induction false} AtlasLength(cuts: seq<seq<TileImage>>)
    ensures |Atlas(cuts)| == 1 + Total(cuts)
    decreases |cuts|
  {
    if |cuts| > 0 {
      AtlasLength(cuts[..|cuts| - 1]);
    }
  }

  /** Cut `k` of run `j` is entry `1 + Total(cuts[..j]) + k`. */
  lemma {:induction false} AtlasRun(cuts: seq<seq<TileImage>>, j: nat, k: nat)
    requires j < |cuts| && k < |cuts[j]|
    ensures 1 + Total(cuts[..j]) + k < |Atlas(cuts)|
    ensures Atlas(cuts)[1 + Total(cuts[..j]) + k] == Some(cuts[j][k])
    decreases |cuts|
  {
    var last := |cuts| - 1;
    var pre, run := Atlas(cuts[..last]), Somes(cuts[last]);
    AtlasLength(cuts[..last]);
    if j < last {
      TakeOfTake(cuts, last, j);
      AtlasRun(cuts[..last], j, k);
      AppendAt(pre, run, 1 + Total(cuts[..j]) + k, Some(cuts[j][k]));
    } else {
      assert cuts[..j] == cuts[..last];
      assert (pre + run)[|pre| + k] == run[k];
    }
  }

  lemma AppendAt<T>(p: seq<T>, q: seq<T>, i: nat, x: T)
    requires i < |p| && p[i] == x
    ensures i < |p + q| && (p + q)[i] == x
  {
  }

  /** The runs `BuildTiles` cuts: run `j` is `SliceSheet(j, sheets[j])`. */
  function SheetCuts(sheets: seq<Sheet>, tw: pos, th: pos): (cuts: seq<seq<TileImage>>)
    ensures |cuts| == |sheets|
    ensures forall j :: 0 <= j < |sheets| ==> cuts[j] == SliceSheet(j, sheets[j], tw, th)
  {
    seq(|sheets|, j requires 0 <= j < |sheets| => SliceSheet(j, sheets[j], tw, th))
  }

  lemma SheetCutsPrefix(sheets: seq<Sheet>, n: nat, tw: pos, th: pos)
    requires n <= |sheets|
    ensures SheetCuts(sheets[..n], tw, th) == SheetCuts(sheets, tw, th)[..n]
  {
    var a, b := SheetCuts(sheets[..n], tw, th), SheetCuts(sheets, tw, th)[..n];
    forall j | 0 <= j < n
      ensures a[j] == b[j]
    {
      assert sheets[..n][j] == sheets[j];
    }
  }

  /** `BuildTiles` is the atlas of its sheets' runs, and `TileCount` their
      total. */
  lemma {:induction false} BuildTilesAtlas(sheets: seq<Sheet>, tw: pos, th: pos)
    ensures BuildTiles(sheets, tw, th) == Atlas(SheetCuts(sheets, tw, th))
    ensures TileCount(sheets, tw, th) == Total(SheetCuts(sheets, tw, th))
    decreases |sheets|
  {
    if |sheets| > 0 {
      var last := |sheets| - 1;
      var cuts := SheetCuts(sheets, tw, th);
      BuildTilesAtlas(sheets[..last], tw, th);
      SheetCutsPrefix(sheets, last, tw, th);
      assert cuts[last] == SliceSheet(last, sheets[last], tw, th);
      assert |cuts[last]| == SheetTiles(sheets[last], tw, th);
    }
  }

  /** Every tileset, not just the last, owns the run of indices after
      those of the tilesets loaded before it: its cut `k` is tile
      `1 + TileCount(sheets[..j]) + k`. */
  lemma BuildTilesRun(sheets: seq<Sheet>, j: nat, k: nat, tw: pos, th: pos)
    requires j < |sheets| && k < |SliceSheet(j, sheets[j], tw, th)|
    ensures 1 + TileCount(sheets[..j], tw, th) + k < |BuildTiles(sheets, tw, th)|
    ensures BuildTiles(sheets, tw, th)[1 + TileCount(sheets[..j], tw, th) + k]
         == Some(SliceSheet(j, sheets[j], tw, th)[k])
  {
    var cuts := SheetCuts(sheets, tw, th);
    var i := 1 + TileCount(sheets[..j], tw, th) + k;
    assert i == 1 + Total(cuts[..j]) + k by {
      BuildTilesAtlas(sheets[..j], tw, th);
      SheetCutsPrefix(sheets, j, tw, th);
    }
    assert k < |cuts[j]| && cuts[j][k] == SliceSheet(j, sheets[j], tw, th)[k];
    AtlasRun(cuts, j, k);
    assert BuildTiles(sheets, tw, th) == Atlas(cuts) by {
      BuildTilesAtlas(sheets, tw, th);
    }
  }

  lemma TakeOfTake<T>(s: seq<T>, n: nat, j: nat)
    requires j < n <= |s|
    ensures s[..n][..j] == s[..j] && s[..n][j] == s[j]
  {
  }

  /** The single-tileset atlas of the first tilemap demo: tile `k` is
      cut `k - 1` of the sheet. */
  lemma SingleSheetAtlas(s: Sheet, tw: pos, th: pos, k: nat)
    requires 1 <= k < |BuildTiles([s], tw, th)|
    ensures |BuildTiles([s], tw, th)| == 1 + (s.height / th) * (s.width / tw)
    ensures s.width / tw > 0
    ensures BuildTiles([s], tw, th)[k] ==
      Some(TileImage(0, ((k - 1) % (s.width / tw)) * tw, ((k - 1) / (s.width / tw)) * th, tw, th))
  {
    assert [s][..0] == [];
    SliceSheetAt(0, s, tw, th, k - 1);
  }

  // --------------------------------------------------- lookup in a layer

  /** A loaded map: size in tiles, tile size in pixels, the tile list and
      the decoded layers. */
  datatype TileMap = TileMap(width: int, height: int, tileWidth: pos, tileHeight: pos,
                             tiles: seq<Option<TileImage>>, layers: map<string, seq<int>>)

  /** Every layer holds one index per map cell. */
  predicate WellFormed(m: TileMap) {
    m.width >= 0 && m.height >= 0 &&
    forall name :: name in m.layers ==> |m.layers[name]| == m.width * m.height
  }

  /** Python `s[i]`: a negative index counts from the end; anything outside
      `-len(s) .. len(s) - 1` is an `IndexError` (`None`). */
  function PyIndex<T>(s: seq<T>, i: int): (r: Option<T>)
    ensures r.Some? <==> -|s| <= i < |s|
    ensures 0 <= i < |s| ==> r == Some(s[i])
    ensures -|s| <= i < 0 ==> r == Some(s[|s| + i])
  {
    if 0 <= i < |s| then Some(s[i])
    else if -|s| <= i < 0 then Some(s[|s| + i])
    else None
  }

  /** `get_index`: row-major. */
  function GetIndex(width: int, x: int, y: int): int {
    x + y * width
  }

  /** Inverse of `GetIndex` on a map of positive width. */
  function CellOf(width: pos, i: int): (int, int) {
    (i % width, i / width)
  }

  /** Row-major indexing is a bijection between the map's cells and
      `0 .. width * height - 1`, with `CellOf` its inverse. */
  lemma GetIndexBijection(width: pos, height: nat, x: int, y: int, i: int)
    ensures 0 <= x < width && 0 <= y < height ==> 0 <= GetIndex(width, x, y) < width * height
    ensures 0 <= x < width ==> CellOf(width, GetIndex(width, x, y)) == (x, y)
    ensures 0 <= i < width * height ==> var (cx, cy) := CellOf(width, i);
      0 <= cx < width && 0 <= cy < height && GetIndex(width, cx, cy) == i
  {
    if 0 <= x < width && 0 <= y < height {
      RowMajorBound(width, height, x, y);
    }
    if 0 <= x < width {
      DivModUnique(x + y * width, width, y, x);
    }
    if 0 <= i < width * height {
      var cy := i / width;
      if cy >= height {
        MulAtLeast(cy - height + 1, width);
        assert false;
      }
    }
  }

  /** `get_tile(layer, x, y)`: `layer_data[layer][get_index(x, y)]`, with
      Python's indexing; `None` is the `KeyError` or `IndexError`. */
  function GetTile(m: TileMap, layer: string, x: int, y: int): (r: Option<int>)
    ensures layer !in m.layers ==> r.None?
    ensures r.Some? ==> r.value in m.layers[layer]
  {
    if layer !in m.layers then None else PyIndex(m.layers[layer], GetIndex(m.width, x, y))
  }

  /** On a well-formed map every cell inside the map reads its own
      row-major entry. */
  lemma GetTileInside(m: TileMap, layer: string, x: int, y: int)
    requires WellFormed(m) && layer in m.layers
    requires 0 <= x < m.width && 0 <= y < m.height
    ensures 0 <= x + y * m.width < |m.layers[layer]|
    ensures GetTile(m, layer, x, y) == Some(m.layers[layer][x + y * m.width])
  {
    RowMajorBound(m.width, m.height, x, y);
  }
}
