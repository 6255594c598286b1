/** The string operations of the Python standard library that the mirror tool relies on:
    `str.split(sep)`, `str.split()`, `str.rstrip()`, `str.startswith`, `int()` and `'%d'`. */
module Text {
  import opened Wrappers

  /** Whitespace as `str.split()` and `str.strip()` see it, restricted to ASCII. */
  predicate IsSpace(c: char) {
    c == ' ' || c == '\t' || c == '\n' || c == '\r' || c == '\U{B}' || c == '\U{C}' || '\U{1C}' <= c <= '\U{1F}'
  }

  predicate NoSpace(s: string) {
    forall i :: 0 <= i < |s| ==> !IsSpace(s[i])
  }

  predicate StartsWith(s: string, prefix: string) {
    |prefix| <= |s| && s[..|prefix|] == prefix
  }

  // ---------------------------------------------------------------------------
  // s.split(sep) and sep.join(fields)

  /** `s.split(sep)`: the pieces of `s` between occurrences of `sep`; never an empty list. */
  function Split(s: string, sep: char): (r: seq<string>)
    ensures |r| >= 1
    ensures forall i :: 0 <= i < |r| ==> sep !in r[i]
    decreases |s|
  {
    if s == [] then [""]
    else if s[0] == sep then [""] + Split(s[1..], sep)
    else
      var rest := Split(s[1..], sep);
      [[s[0]] + rest[0]] + rest[1..]
  }

  /** `sep.join(fields)`. */
  function Join(fields: seq<string>, sep: char): string
    decreases |fields|
  {
    if fields == [] then ""
    else if |fields| == 1 then fields[0]
    else fields[0] + [sep] + Join(fields[1..], sep)
  }

  /** Joining the pieces again gives back the string that was split. */
  lemma {:induction false} JoinSplit(s: string, sep: char)
    ensures Join(Split(s, sep), sep) == s
    decreases |s|
  {
    if s != [] {
      var rest := Split(s[1..], sep);
      JoinSplit(s[1..], sep);
      if s[0] == sep {
        assert Split(s, sep) == [""] + rest;
        assert ([""] + rest)[1..] == rest;
      } else {
        var r := Split(s, sep);
        assert r == [[s[0]] + rest[0]] + rest[1..];
        if |rest| == 1 {
          assert Join(r, sep) == [s[0]] + rest[0];
        } else {
          assert r[1..] == rest[1..];
          assert Join(rest, sep) == rest[0] + [sep] + Join(rest[1..], sep);
          assert Join(r, sep) == ([s[0]] + rest[0]) + [sep] + Join(rest[1..], sep);
        }
      }
    }
  }

  /** Splitting a piece that does not contain the separator, followed by the separator. */
  lemma {:induction false} SplitAfterPiece(w: string, sep: char, rest: string)
    requires sep !in w
    ensures Split(w + [sep] + rest, sep) == [w] + Split(rest, sep)
    ensures Split(w, sep) == [w]
    decreases |w|
  {
    if w == [] {
      assert w + [sep] + rest == [sep] + rest;
      assert ([sep] + rest)[1..] == rest;
    } else {
      SplitAfterPiece(w[1..], sep, rest);
      assert (w + [sep] + rest)[1..] == w[1..] + [sep] + rest;
      assert [w[0]] + w[1..] == w;
    }
  }

  /** Splitting a joined list of separator-free pieces gives back the pieces. */
  lemma {:induction false} SplitJoin(fields: seq<string>, sep: char)
    requires |fields| >= 1
    requires forall i :: 0 <= i < |fields| ==> sep !in fields[i]
    ensures Split(Join(fields, sep), sep) == fields
    decreases |fields|
  {
    if |fields| == 1 {
      SplitAfterPiece(fields[0], sep, "");
    } else {
      SplitJoin(fields[1..], sep);
      SplitAfterPiece(fields[0], sep, Join(fields[1..], sep));
      assert [fields[0]] + fields[1..] == fields;
    }
  }

  // ---------------------------------------------------------------------------
  // s.split() and s.rstrip()

  /** `s` without its leading whitespace. */
  function SkipSpace(s: string): (r: string)
    ensures |r| <= |s| && r == s[|s| - |r|..]
    ensures r == [] || !IsSpace(r[0])
    ensures forall i :: 0 <= i < |s| - |r| ==> IsSpace(s[i])
    decreases |s|
  {
    if s != [] && IsSpace(s[0]) then SkipSpace(s[1..]) else s
  }

  /** The longest prefix of `s` without whitespace. */
  function Word(s: string): (r: string)
    ensures |r| <= |s| && r == s[..|r|]
    ensures NoSpace(r)
    ensures |r| < |s| ==> IsSpace(s[|r|])
    ensures s != [] && !IsSpace(s[0]) ==> r != []
    decreases |s|
  {
    if s == [] || IsSpace(s[0]) then [] else [s[0]] + Word(s[1..])
  }

  /** `s.split()`: the maximal runs of non-whitespace characters, in order. */
  function Words(s: string): (r: seq<string>)
    ensures forall w :: w in r ==> w != [] && NoSpace(w)
    decreases |s|
  {
    var t := SkipSpace(s);
    if t == [] then []
    else
      var w := Word(t);
      [w] + Words(t[|w|..])
  }

  /** The word at the front of a whitespace-free string and whatever follows a whitespace. */
  lemma {:induction false} WordBeforeSpace(w: string, rest: string)
    requires w != [] && NoSpace(w)
    requires rest == [] || IsSpace(rest[0])
    ensures Word(w + rest) == w
    decreases |w|
  {
    if |w| > 1 {
      WordBeforeSpace(w[1..], rest);
      assert (w + rest)[1..] == w[1..] + rest;
    } else {
      assert (w + rest)[1..] == rest;
    }
  }

  /** Leading whitespace does not change `split()`. */
  lemma WordsAfterSpace(c: char, x: string)
    requires IsSpace(c)
    ensures Words([c] + x) == Words(x)
  {
    SkipLeadingSpace(c, x);
  }

  lemma SkipLeadingSpace(c: char, x: string)
    requires IsSpace(c)
    ensures SkipSpace([c] + x) == SkipSpace(x)
  {
    assert ([c] + x)[1..] == x;
  }

  /** `' '.join(ws).split() == ws` for non-empty words without whitespace. */
  lemma {:induction false} WordsJoin(ws: seq<string>)
    requires forall i :: 0 <= i < |ws| ==> ws[i] != [] && NoSpace(ws[i])
    ensures Words(Join(ws, ' ')) == ws
    decreases |ws|
  {
    if ws == [] {
      assert SkipSpace("") == "";
    } else if |ws| == 1 {
      WordsOfFirstWord(ws[0], "");
      assert ws[0] + "" == ws[0];
      assert SkipSpace("") == "";
    } else {
      WordsJoin(ws[1..]);
      WordsJoinStep(ws[0], ws[1..]);
      assert [ws[0]] + ws[1..] == ws;
    }
  }

  lemma WordsJoinStep(w: string, ws: seq<string>)
    requires w != [] && NoSpace(w) && ws != []
    requires Words(Join(ws, ' ')) == ws
    ensures Words(Join([w] + ws, ' ')) == [w] + ws
  {
    var j := Join(ws, ' ');
    assert Join([w] + ws, ' ') == w + ([' '] + j) by {
      assert ([w] + ws)[1..] == ws;
    }
    WordsOfFirstWord(w, [' '] + j);
    WordsAfterSpace(' ', j);
  }

  lemma WordsOfFirstWord(w: string, rest: string)
    requires w != [] && NoSpace(w)
    requires rest == [] || IsSpace(rest[0])
    ensures Words(w + rest) == [w] + Words(rest)
  {
    assert SkipSpace(w + rest) == w + rest;
    WordBeforeSpace(w, rest);
    assert (w + rest)[|w|..] == rest;
  }

  /** A whitespace character always separates words: `(a + c + b).split()` is `a.split()`
      followed by `b.split()`, so no word of the line spans a run of whitespace. */
  lemma {:induction false} WordsSplitAtSpace(a: string, c: char, b: string)
    requires IsSpace(c)
    ensures Words(a + [c] + b) == Words(a) + Words(b)
    decreases |a|
  {
    if a == [] {
      assert a + [c] + b == [c] + b;
      WordsAfterSpace(c, b);
      assert SkipSpace(a) == [];
      assert Words(a) == [];
      assert Words(a) + Words(b) == Words(b);
    } else if IsSpace(a[0]) {
      var a' := a[1..];
      assert a + [c] + b == [a[0]] + (a' + [c] + b);
      assert a == [a[0]] + a';
      WordsAfterSpace(a[0], a' + [c] + b);
      WordsAfterSpace(a[0], a');
      WordsSplitAtSpace(a', c, b);
      assert Words(a + [c] + b) == Words(a' + [c] + b);
      assert Words(a) == Words(a');
    } else {
      var w := Word(a);
      var u := a[|w|..];
      FirstWordBeforeSpace(a, c, b);
      WordsSplitAtSpace(u, c, b);
      ConcatAssoc([w], Words(u), Words(b));
    }
  }

  /** The first word of `a`, when `a` starts with one, is also the first word of `a`
      followed by a whitespace. */
  lemma FirstWordBeforeSpace(a: string, c: char, b: string)
    requires IsSpace(c) && a != [] && !IsSpace(a[0])
    ensures var w := Word(a);
            && Words(a + [c] + b) == [w] + Words(a[|w|..] + [c] + b)
            && Words(a) == [w] + Words(a[|w|..])
  {
    var w := Word(a);
    var u := a[|w|..];
    var x := a + [c] + b;
    assert a == w + u;
    assert x == w + (u + [c] + b);
    WordBeforeSpace(w, u + [c] + b);
    assert x[|w|..] == u + [c] + b;
  }

  lemma ConcatAssoc<T>(a: seq<T>, b: seq<T>, c: seq<T>)
    ensures a + (b + c) == (a + b) + c
  {
  }

  /** The words of a list, concatenated. */
  function Flatten(ws: seq<string>): string
    decreases |ws|
  {
    if ws == [] then "" else ws[0] + Flatten(ws[1..])
  }

  /** `s` with its whitespace removed. */
  function NonSpace(s: string): string
    decreases |s|
  {
    if s == [] then "" else (if IsSpace(s[0]) then "" else [s[0]]) + NonSpace(s[1..])
  }

  lemma {:induction false} NonSpaceAppend(a: string, b: string)
    ensures NonSpace(a + b) == NonSpace(a) + NonSpace(b)
    decreases |a|
  {
    if a != [] {
      NonSpaceAppend(a[1..], b);
      assert (a + b)[1..] == a[1..] + b;
    } else {
      assert a + b == b;
    }
  }

  lemma {:induction false} NonSpaceOfWord(w: string)
    requires NoSpace(w)
    ensures NonSpace(w) == w
    decreases |w|
  {
    if w != [] {
      NonSpaceOfWord(w[1..]);
      assert [w[0]] + w[1..] == w;
    }
  }

  lemma {:induction false} NonSpaceSkipSpace(s: string)
    ensures NonSpace(SkipSpace(s)) == NonSpace(s)
    decreases |s|
  {
    if s != [] && IsSpace(s[0]) {
      NonSpaceSkipSpace(s[1..]);
    }
  }

  /** The words of `s.split()`, in order, are exactly the characters of `s` that are not
      whitespace. */
  lemma {:induction false} WordsCover(s: string)
    ensures Flatten(Words(s)) == NonSpace(s)
    decreases |s|
  {
    var t := SkipSpace(s);
    NonSpaceSkipSpace(s);
    if t != [] {
      var w := Word(t);
      var u := t[|w|..];
      assert t == w + u;
      NonSpaceAppend(w, u);
      NonSpaceOfWord(w);
      WordsCover(u);
      assert Words(s) == [w] + Words(u);
      assert ([w] + Words(u))[1..] == Words(u);
    } else {
      assert Words(s) == [];
    }
  }

  /** `s.rstrip()`: `s` without its trailing whitespace. */
  function RStrip(s: string): (r: string)
    ensures |r| <= |s| && r == s[..|r|]
    ensures r == [] || !IsSpace(r[|r| - 1])
    ensures forall i :: |r| <= i < |s| ==> IsSpace(s[i])
    decreases |s|
  {
    if s != [] && IsSpace(s[|s| - 1]) then RStrip(s[..|s| - 1]) else s
  }

  /** A word of `s.split()` is left alone by `rstrip()`. */
  lemma RStripWord(s: string)
    ensures forall w :: w in Words(s) ==> RStrip(w) == w
  {
    forall w | w in Words(s)
      ensures RStrip(w) == w
    {
      assert w != [] && !IsSpace(w[|w| - 1]);
    }
  }

  // ---------------------------------------------------------------------------
  // int(s) and '%d' % n

  predicate IsDigit(c: char) { '0' <= c <= '9' }

  predicate AllDigits(s: string) {
    forall i :: 0 <= i < |s| ==> IsDigit(s[i])
  }

  /** The value of a string of decimal digits. */
  function DigitsValue(d: string): nat
    requires AllDigits(d)
    decreases |d|
  {
    if d == [] then 0 else DigitsValue(d[..|d| - 1]) * 10 + ((d[|d| - 1] as int) - ('0' as int))
  }

  /** Whitespace as `int()` sees it in an ASCII string: space, tab, newline, vertical tab,
      form feed and carriage return. The separators `\x1c`-`\x1f` of `str.split()` are not. */
  predicate IsIntSpace(c: char) {
    c == ' ' || '\t' <= c <= '\r'
  }

  /** `s` without the leading whitespace `int()` skips. */
  function IntTrimStart(s: string): (r: string)
    ensures |r| <= |s| && r == s[|s| - |r|..]
    ensures r == [] || !IsIntSpace(r[0])
    ensures forall i :: 0 <= i < |s| - |r| ==> IsIntSpace(s[i])
    decreases |s|
  {
    if s != [] && IsIntSpace(s[0]) then IntTrimStart(s[1..]) else s
  }

  /** `s` without the trailing whitespace `int()` skips. */
  function IntTrimEnd(s: string): (r: string)
    ensures |r| <= |s| && r == s[..|r|]
    ensures r == [] || !IsIntSpace(r[|r| - 1])
    ensures forall i :: |r| <= i < |s| ==> IsIntSpace(s[i])
    decreases |s|
  {
    if s != [] && IsIntSpace(s[|s| - 1]) then IntTrimEnd(s[..|s| - 1]) else s
  }

  /** `int(s)` on a `str`: surrounding whitespace, an optional sign, then at least one
      decimal digit; anything else raises ValueError (modelled as None). */
  function ParseInt(s: string): Option<int> {
    ParseTrimmed(IntTrimEnd(IntTrimStart(s)))
  }

  /** `int()` once the surrounding whitespace is gone: an optional sign and the digits. */
  function ParseTrimmed(t: string): Option<int> {
    var signed := t != [] && (t[0] == '-' || t[0] == '+');
    var digits := if signed then t[1..] else t;
    if digits != [] && AllDigits(digits) then
      var v: int := DigitsValue(digits);
      Some(if signed && t[0] == '-' then -v else v)
    else None
  }

  /** `int()` of the empty string or of whitespace alone raises ValueError. */
  lemma BlankIsNotANumber(s: string)
    requires forall i :: 0 <= i < |s| ==> IsIntSpace(s[i])
    ensures ParseInt(s) == None
  {
    assert IntTrimStart(s) == [];
  }

  /** Leading whitespace of `int()` is skipped: `int(c + s) == int(s)`. */
  lemma ParseIntSkipsSpace(c: char, s: string)
    requires IsIntSpace(c)
    ensures ParseInt([c] + s) == ParseInt(s)
  {
    IntTrimStartSpace(c, s);
  }

  lemma IntTrimStartSpace(c: char, s: string)
    requires IsIntSpace(c)
    ensures IntTrimStart([c] + s) == IntTrimStart(s)
  {
    assert ([c] + s)[1..] == s;
  }

  /** A leading separator `\x1c`-`\x1f`, which `str.split()` treats as whitespace, makes
      `int()` raise ValueError whatever follows. */
  lemma ParseIntRejectsSeparator(c: char, s: string)
    requires IsSpace(c) && !IsIntSpace(c)
    ensures ParseInt([c] + s) == None
  {
    var t := IntTrimEnd([c] + s);
    assert IntTrimStart([c] + s) == [c] + s;
    TrimmedStartsWith(c, s);
    NotDigitNotNumber(t);
  }

  lemma TrimmedStartsWith(c: char, s: string)
    requires !IsIntSpace(c)
    ensures var t := IntTrimEnd([c] + s); t != [] && t[0] == c
  {
    assert ([c] + s)[0] == c;
  }

  lemma NotDigitNotNumber(t: string)
    requires t != [] && !IsDigit(t[0]) && t[0] != '-' && t[0] != '+'
    ensures ParseTrimmed(t) == None
  {
  }

  function DigitChar(n: nat): (c: char)
    requires n < 10
    ensures IsDigit(c) && (c as int) - ('0' as int) == n
  {
    ('0' as int + n) as char
  }

  /** `'%d' % n` for a natural number. */
  function NatToString(n: nat): (r: string)
    ensures r != [] && AllDigits(r)
    ensures |r| > 1 ==> r[0] != '0'
    decreases n
  {
    if n < 10 then [DigitChar(n)] else NatToString(n / 10) + [DigitChar(n % 10)]
  }

  /** `'%d' % n`: a minus sign for negative numbers, then the decimal digits. */
  function IntToString(n: int): (r: string)
    ensures r != [] && !IsSpace(r[0]) && !IsSpace(r[|r| - 1])
  {
    if n < 0 then "-" + NatToString(-n) else NatToString(n)
  }

  lemma {:induction false} NatToStringValue(n: nat)
    ensures DigitsValue(NatToString(n)) == n
    decreases n
  {
    var r := NatToString(n);
    if n >= 10 {
      NatToStringValue(n / 10);
      assert r[..|r| - 1] == NatToString(n / 10);
    }
  }

  /** `int('%d' % n) == n`. */
  lemma ParseIntToString(n: int)
    ensures ParseInt(IntToString(n)) == Some(n)
  {
    var s := IntToString(n);
    assert IntTrimStart(s) == s;
    assert IntTrimEnd(s) == s;
    ParseTrimmedDigits(n);
  }

  lemma ParseTrimmedDigits(n: int)
    ensures ParseTrimmed(IntToString(n)) == Some(n)
  {
    var s := IntToString(n);
    if n < 0 {
      var d := NatToString(-n);
      NatToStringValue(-n);
      assert s == "-" + d && s[0] == '-' && s[1..] == d;
    } else {
      NatToStringValue(n);
      assert IsDigit(s[0]);
    }
  }

  /** Different numbers are written differently. */
  lemma IntToStringInjective(m: int, n: int)
    requires IntToString(m) == IntToString(n)
    ensures m == n
  {
    ParseIntToString(m);
    ParseIntToString(n);
  }

  // ---------------------------------------------------------------------------
  // Reading a stream

  /** The number of reads before the first one that returns '' (end of stream), for
      `readline()` on a pipe and `read(n)` on an HTTP response alike; a read past the
      recorded ones also returns ''. */
  function Eof(results: seq<string>): (k: nat)
    ensures k <= |results|
    ensures forall j :: 0 <= j < k ==> results[j] != ""
    ensures k < |results| ==> results[k] == ""
    decreases |results|
  {
    if results == [] || results[0] == "" then 0 else 1 + Eof(results[1..])
  }
}
