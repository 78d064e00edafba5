/** The handful of Python `str` and `int` built-ins the demos lean on:
    `str.split()`, `str.split(sep)`, `sep.join(parts)`, `int(token)`,
    `str(n)` and `str.rindex(' ', 0, end)`, over `string = seq<char>`. */
module PyStr {
  import opened Wrappers

  /** Python's `str.isspace()` for one character: the ASCII controls
      TAB..CR, the file/group/record/unit separators, space, NEL, NBSP and
      the Unicode space separators. */
  predicate IsSpace(c: char) {
    || c == ' '
    || ('\t' <= c <= '\r')
    || ('\U{1c}' <= c <= '\U{1f}')
    || c == '\U{85}' || c == '\U{a0}' || c == '\U{1680}'
    || ('\U{2000}' <= c <= '\U{200a}')
    || c == '\U{2028}' || c == '\U{2029}' || c == '\U{202f}'
    || c == '\U{205f}' || c == '\U{3000}'
  }

  /** A word as `str.split()` produces it: non-empty, no whitespace. */
  predicate IsWord(w: string) {
    |w| > 0 && forall i :: 0 <= i < |w| ==> !IsSpace(w[i])
  }

  predicate NoSpace(s: string) {
    forall i :: 0 <= i < |s| ==> !IsSpace(s[i])
  }

  lemma NoSpaceConcat(a: string, b: string)
    requires NoSpace(a) && NoSpace(b)
    ensures NoSpace(a + b)
  {
    forall i | 0 <= i < |a + b|
      ensures !IsSpace((a + b)[i])
    {
      if i >= |a| {
        assert (a + b)[i] == b[i - |a|];
      }
    }
  }

  /** `sep.join(parts)`. */
  function Join(sep: string, parts: seq<string>): string {
    if |parts| == 0 then ""
    else if |parts| == 1 then parts[0]
    else parts[0] + sep + Join(sep, parts[1..])
  }

  function Flatten<T>(ss: seq<seq<T>>): (r: seq<T>)
    ensures |ss| == 0 ==> r == []
  {
    if |ss| == 0 then [] else ss[0] + Flatten(ss[1..])
  }

  lemma FlattenAppend<T>(a: seq<seq<T>>, b: seq<seq<T>>)
    ensures Flatten(a + b) == Flatten(a) + Flatten(b)
  {
    if |a| == 0 {
      assert a + b == b;
    } else {
      assert (a + b)[1..] == a[1..] + b;
      FlattenAppend(a[1..], b);
    }
  }

  lemma JoinAppendOne(sep: string, parts: seq<string>, p: string)
    requires |parts| > 0
    ensures Join(sep, parts + [p]) == Join(sep, parts) + sep + p
  {
    if |parts| == 1 {
      assert (parts + [p])[1..] == [p];
    } else {
      assert (parts + [p])[1..] == parts[1..] + [p];
      JoinAppendOne(sep, parts[1..], p);
    }
  }

  /** Length of the leading run of non-whitespace characters. */
  function WordLen(s: string): (n: nat)
    ensures n <= |s|
    ensures forall i :: 0 <= i < n ==> !IsSpace(s[i])
    ensures n < |s| ==> IsSpace(s[n])
  {
    if |s| == 0 || IsSpace(s[0]) then 0 else 1 + WordLen(s[1..])
  }

  /** `s.split()`: the maximal whitespace-free runs of `s`, in order. */
  function Split(s: string): (ws: seq<string>)
    ensures forall w :: w in ws ==> IsWord(w)
    decreases |s|
  {
    if |s| == 0 then []
    else if IsSpace(s[0]) then Split(s[1..])
    else
      var n := WordLen(s);
      [s[..n]] + Split(s[n..])
  }

  lemma WordLenOfWord(w: string, t: string)
    requires IsWord(w)
    requires |t| == 0 || IsSpace(t[0])
    ensures WordLen(w + t) == |w|
    decreases |w|
  {
    if |w| > 1 {
      assert (w + t)[1..] == w[1..] + t;
      WordLenOfWord(w[1..], t);
    } else {
      assert (w + t)[1..] == t;
    }
  }

  /** Splitting words joined by single spaces gives the words back. */
  lemma {:induction false} SplitJoin(ws: seq<string>)
    requires forall i :: 0 <= i < |ws| ==> IsWord(ws[i])
    ensures Split(Join(" ", ws)) == ws
  {
    if |ws| == 0 {
    } else if |ws| == 1 {
      var s := ws[0];
      WordLenOfWord(s, "");
      assert s + "" == s;
      assert s[|s|..] == "";
      assert s[..|s|] == s;
    } else {
      var rest := Join(" ", ws[1..]);
      var s := ws[0] + " " + rest;
      assert s == ws[0] + (" " + rest);
      WordLenOfWord(ws[0], " " + rest);
      assert s[..|ws[0]|] == ws[0];
      assert s[|ws[0]|..] == " " + rest;
      assert (" " + rest)[1..] == rest;
      SplitJoin(ws[1..]);
      assert ws == [ws[0]] + ws[1..];
    }
  }

  /** A whitespace-only string, such as the padding around a CSV value. */
  predicate AllSpace(s: string) {
    forall i :: 0 <= i < |s| ==> IsSpace(s[i])
  }

  /** The leading word of `a` is also that of `a + t` when it ends inside
      `a` or `t` starts with whitespace. */
  lemma {:induction false} WordLenPrefix(a: string, t: string)
    requires WordLen(a) < |a| || |t| == 0 || IsSpace(t[0])
    ensures WordLen(a + t) == WordLen(a)
    decreases |a|
  {
    if |a| == 0 {
      assert a + t == t;
    } else if !IsSpace(a[0]) {
      assert (a + t)[1..] == a[1..] + t;
      WordLenPrefix(a[1..], t);
    }
  }

  /** A whitespace character separates words: the words of `a + [c] + b`
      are those of `a` followed by those of `b`. Together with `SplitJoin`
      this says `split()` yields the text's words, in order. */
  lemma {:induction false} SplitSpaceCons(a: string, c: char, b: string)
    requires IsSpace(c)
    ensures Split(a + [c] + b) == Split(a) + Split(b)
    decreases |a|
  {
    if |a| == 0 {
      assert a + [c] + b == [c] + b;
      assert ([c] + b)[1..] == b;
    } else if IsSpace(a[0]) {
      SplitSpaceLead(a, c, b);
    } else {
      SplitWordLead(a, c, b);
    }
  }

  lemma {:induction false} SplitSpaceLead(a: string, c: char, b: string)
    requires IsSpace(c) && |a| > 0 && IsSpace(a[0])
    ensures Split(a + [c] + b) == Split(a) + Split(b)
    decreases |a|, 0
  {
    var s := a + [c] + b;
    assert s[0] == a[0];
    assert s[1..] == a[1..] + [c] + b;
    SplitSpaceCons(a[1..], c, b);
  }

  lemma {:induction false} SplitWordLead(a: string, c: char, b: string)
    requires IsSpace(c) && |a| > 0 && !IsSpace(a[0])
    ensures Split(a + [c] + b) == Split(a) + Split(b)
    decreases |a|, 0
  {
    var s := a + [c] + b;
    var m := WordLen(a);
    assert s == a + ([c] + b);
    WordLenPrefix(a, [c] + b);
    assert s[0] == a[0];
    assert s[..m] == a[..m];
    assert s[m..] == a[m..] + [c] + b;
    assert Split(s) == [a[..m]] + Split(s[m..]);
    assert Split(a) == [a[..m]] + Split(a[m..]);
    SplitSpaceCons(a[m..], c, b);
  }

  /** A single word splits to itself. */
  lemma SplitWord(w: string)
    requires IsWord(w)
    ensures Split(w) == [w]
  {
    SplitJoin([w]);
  }

  /** Index of the first occurrence of `c` in `s`. */
  function IndexOf(s: string, c: char): (i: nat)
    requires c in s
    ensures i < |s| && s[i] == c && c !in s[..i]
  {
    if s[0] == c then 0 else 1 + IndexOf(s[1..], c)
  }

  /** `s.split(sep)` for a one-character separator. */
  function SplitOn(s: string, sep: char): (parts: seq<string>)
    ensures |parts| >= 1
    ensures forall p :: p in parts ==> sep !in p
    ensures Join([sep], parts) == s
    decreases |s|
  {
    if sep !in s then [s]
    else
      var i := IndexOf(s, sep);
      var rest := SplitOn(s[i + 1..], sep);
      assert s == s[..i] + [sep] + s[i + 1..];
      [s[..i]] + rest
  }

  lemma SplitOnCons(a: string, sep: char, b: string)
    requires sep !in a
    ensures SplitOn(a + [sep] + b, sep) == [a] + SplitOn(b, sep)
  {
    var s := a + [sep] + b;
    assert s[|a|] == sep;
    assert s[..|a|] == a;
    var i := IndexOf(s, sep);
    assert i == |a|;
    assert s[..i] == a;
    assert s[i + 1..] == b;
  }

  /** A separator splits the string in two: the parts of `a + [sep] + b`
      are those of `a` followed by those of `b`. */
  lemma {:induction false} SplitOnAppend(a: string, sep: char, b: string)
    ensures SplitOn(a + [sep] + b, sep) == SplitOn(a, sep) + SplitOn(b, sep)
    decreases |a|, 1
  {
    if sep !in a {
      SplitOnCons(a, sep, b);
    } else {
      SplitOnAppendAt(a, sep, b);
    }
  }

  lemma {:induction false} SplitOnAppendAt(a: string, sep: char, b: string)
    requires sep in a
    ensures SplitOn(a + [sep] + b, sep) == SplitOn(a, sep) + SplitOn(b, sep)
    decreases |a|, 0
  {
    var i := IndexOf(a, sep);
    var rest := a[i + 1..];
    SplitOnFirstAppend(a, sep, b);
    SplitOnFirst(a, sep);
    SplitOnAppend(rest, sep, b);
    PrependAssoc(SplitOn(a + [sep] + b, sep), [a[..i]], SplitOn(rest + [sep] + b, sep),
                 SplitOn(a, sep), SplitOn(rest, sep), SplitOn(b, sep));
  }

  lemma PrependAssoc<T>(p: seq<T>, h: seq<T>, q: seq<T>, y: seq<T>, z: seq<T>, w: seq<T>)
    requires p == h + q && q == z + w && y == h + z
    ensures p == y + w
  {
  }

  /** The first separator in `a` is also the first in `a + [sep] + b`. */
  lemma SplitOnFirstAppend(a: string, sep: char, b: string)
    requires sep in a
    ensures SplitOn(a + [sep] + b, sep)
         == [a[..IndexOf(a, sep)]] + SplitOn(a[IndexOf(a, sep) + 1..] + [sep] + b, sep)
  {
    var s := a + [sep] + b;
    var i := IndexOf(a, sep);
    FirstSepAppend(a, sep, b);
    assert s[i + 1..] == a[i + 1..] + [sep] + b;
    SplitOnFirst(s, sep);
  }

  lemma FirstSepAppend(a: string, sep: char, b: string)
    requires sep in a
    ensures sep in a + [sep] + b
    ensures IndexOf(a + [sep] + b, sep) == IndexOf(a, sep)
    ensures (a + [sep] + b)[..IndexOf(a, sep)] == a[..IndexOf(a, sep)]
  {
    var s := a + [sep] + b;
    var i := IndexOf(a, sep);
    assert s[i] == sep && s[..i] == a[..i];
  }

  /** The first part runs up to the first separator. */
  lemma SplitOnFirst(s: string, sep: char)
    requires sep in s
    ensures SplitOn(s, sep) == [s[..IndexOf(s, sep)]] + SplitOn(s[IndexOf(s, sep) + 1..], sep)
  {
  }

  /** Splitting on a separator that no part contains undoes the join. */
  lemma {:induction false} SplitOnJoin(parts: seq<string>, sep: char)
    requires |parts| >= 1
    requires forall i :: 0 <= i < |parts| ==> sep !in parts[i]
    ensures SplitOn(Join([sep], parts), sep) == parts
  {
    if |parts| > 1 {
      SplitOnCons(parts[0], sep, Join([sep], parts[1..]));
      SplitOnJoin(parts[1..], sep);
      assert parts == [parts[0]] + parts[1..];
    }
  }

  predicate IsDigit(c: char) {
    '0' <= c <= '9'
  }

  predicate AllDigits(s: string) {
    forall i :: 0 <= i < |s| ==> IsDigit(s[i])
  }

  function StripLeft(s: string): (t: string)
    ensures |t| <= |s|
    ensures |t| > 0 ==> !IsSpace(t[0])
  {
    if |s| > 0 && IsSpace(s[0]) then StripLeft(s[1..]) else s
  }

  function StripRight(s: string): (t: string)
    ensures |t| <= |s|
    ensures |t| > 0 ==> !IsSpace(t[|t| - 1])
  {
    if |s| > 0 && IsSpace(s[|s| - 1]) then StripRight(s[..|s| - 1]) else s
  }

  lemma StripAllSpace(s: string)
    ensures (forall i :: 0 <= i < |s| ==> IsSpace(s[i])) ==> Strip(s) == ""
  {
    if forall i :: 0 <= i < |s| ==> IsSpace(s[i]) {
      StripLeftAllSpace(s);
    }
  }

  lemma StripLeftAllSpace(s: string)
    requires forall i :: 0 <= i < |s| ==> IsSpace(s[i])
    ensures StripLeft(s) == ""
  {
    if |s| > 0 {
      StripLeftAllSpace(s[1..]);
    }
  }

  /** `s.strip()`. */
  function Strip(s: string): string {
    StripRight(StripLeft(s))
  }

  /** Value of a run of decimal digits, most significant first. */
  function DigitsValue(s: string): nat
    requires AllDigits(s)
  {
    if |s| == 0 then 0
    else DigitsValue(s[..|s| - 1]) * 10 + (s[|s| - 1] as int - '0' as int)
  }

  /** Python's `int(token)` in base 10: surrounding whitespace is ignored,
      one optional sign, then one or more ASCII digits; anything else is a
      `ValueError` (`None`). */
  function ParseInt(s: string): (r: Option<int>)
    ensures (forall i :: 0 <= i < |s| ==> IsSpace(s[i])) ==> r.None?
  {
    StripAllSpace(s);
    var t := Strip(s);
    if |t| > 1 && (t[0] == '-' || t[0] == '+') && AllDigits(t[1..]) then
      var v: int := DigitsValue(t[1..]);
      Some(if t[0] == '-' then -v else v)
    else if |t| > 0 && AllDigits(t) then Some(DigitsValue(t))
    else None
  }

  function DigitChar(d: nat): (c: char)
    requires d < 10
    ensures IsDigit(c) && c as int - '0' as int == d
  {
    (d + '0' as int) as char
  }

  /** `str(n)` for a natural number. */
  function NatToString(n: nat): (s: string)
    ensures |s| > 0 && AllDigits(s)
  {
    if n < 10 then [DigitChar(n)] else NatToString(n / 10) + [DigitChar(n % 10)]
  }

  /** `str(n)`. */
  function IntToString(n: int): string {
    if n < 0 then "-" + NatToString(-n) else NatToString(n)
  }

  lemma {:induction false} DigitsOfNat(n: nat)
    ensures DigitsValue(NatToString(n)) == n
  {
    var s := NatToString(n);
    if n >= 10 {
      assert s[..|s| - 1] == NatToString(n / 10);
      DigitsOfNat(n / 10);
    }
  }

  lemma StripNoEdgeSpace(t: string)
    requires |t| > 0 && !IsSpace(t[0]) && !IsSpace(t[|t| - 1])
    ensures Strip(t) == t
  {
  }

  lemma {:induction false} StripLeftPad(a: string, t: string)
    requires AllSpace(a) && (|t| == 0 || !IsSpace(t[0]))
    ensures StripLeft(a + t) == t
    decreases |a|
  {
    if |a| == 0 {
      assert a + t == t;
    } else {
      assert (a + t)[1..] == a[1..] + t;
      StripLeftPad(a[1..], t);
    }
  }

  lemma {:induction false} StripRightPad(t: string, b: string)
    requires AllSpace(b) && (|t| == 0 || !IsSpace(t[|t| - 1]))
    ensures StripRight(t + b) == t
    decreases |b|
  {
    if |b| == 0 {
      assert t + b == t;
    } else {
      var b1 := b[..|b| - 1];
      assert (t + b)[..|t + b| - 1] == t + b1;
      StripRightPad(t, b1);
    }
  }

  /** `strip()` removes exactly the whitespace padding around a word. */
  lemma StripPadded(a: string, w: string, b: string)
    requires AllSpace(a) && AllSpace(b) && IsWord(w)
    ensures Strip(a + w + b) == w
  {
    assert a + w + b == a + (w + b);
    StripLeftPad(a, w + b);
    StripRightPad(w, b);
  }

  /** `int` only sees the stripped token. */
  lemma ParseIntStrip(s: string, t: string)
    requires Strip(s) == Strip(t)
    ensures ParseInt(s) == ParseInt(t)
  {
  }

  /** `int(str(n)) == n`. */
  lemma ParseIntToString(n: int)
    ensures ParseInt(IntToString(n)) == Some(n)
  {
    var s := IntToString(n);
    var d := NatToString(if n < 0 then -n else n);
    DigitsOfNat(if n < 0 then -n else n);
    assert !IsSpace(d[|d| - 1]);
    if n < 0 {
      assert s == "-" + d;
      assert s[1..] == d;
      StripNoEdgeSpace(s);
    } else {
      assert !IsSpace(d[0]);
      StripNoEdgeSpace(s);
    }
  }

  lemma IntToStringNoSpace(n: int)
    ensures IsWord(IntToString(n)) && ',' !in IntToString(n)
  {
    var d := NatToString(if n < 0 then -n else n);
    assert forall i :: 0 <= i < |d| ==> IsDigit(d[i]);
    if n < 0 {
      assert IntToString(n) == "-" + d;
    }
  }

  /** `s.rindex(' ', 0, end)`: the last space strictly before `end`, or a
      `ValueError` (`None`) when there is none. */
  function RIndexSpace(s: string, end: nat): (r: Option<nat>)
    ensures r.Some? ==> r.value < end && r.value < |s| && s[r.value] == ' '
    ensures r.Some? ==> forall j :: r.value < j < end && j < |s| ==> s[j] != ' '
    ensures r.None? ==> forall j :: 0 <= j < end && j < |s| ==> s[j] != ' '
    decreases end
  {
    if end == 0 then None
    else if end - 1 < |s| && s[end - 1] == ' ' then Some(end - 1)
    else RIndexSpace(s, end - 1)
  }
}
