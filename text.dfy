/** The JavaScript string primitives the content store relies on:
    decimal digits and `Number#toString`, `padStart(2, '0')`,
    `split(':')`, `trim()` and the UTF-16 `length` that Mongoose's
    `maxlength` measures. */
module Text {

  predicate IsDigit(c: char) {
    '0' <= c <= '9'
  }

  predicate IsDigits(s: string) {
    forall i :: 0 <= i < |s| ==> IsDigit(s[i])
  }

  function DigitValue(c: char): (d: nat)
    requires IsDigit(c)
    ensures d < 10
  {
    c as int - '0' as int
  }

  function DigitChar(d: nat): (c: char)
    requires d < 10
    ensures IsDigit(c) && DigitValue(c) == d
  {
    ('0' as int + d) as char
  }

  /** The value of a string of decimal digits; the empty string is 0, as
      `Number("")` is. */
  function DigitsValue(s: string): nat
    requires IsDigits(s)
  {
    if s == [] then 0 else DigitsValue(s[..|s| - 1]) * 10 + DigitValue(s[|s| - 1])
  }

  lemma DigitsValueSnoc(s: string, c: char)
    requires IsDigits(s) && IsDigit(c)
    ensures IsDigits(s + [c]) && DigitsValue(s + [c]) == DigitsValue(s) * 10 + DigitValue(c)
  {
    assert (s + [c])[..|s|] == s;
  }

  /** `n.toString()` for a non-negative integer: decimal digits with no
      leading zero. */
  function NatToString(n: nat): (r: string)
    ensures |r| >= 1 && IsDigits(r)
    ensures DigitsValue(r) == n
    ensures r[0] == '0' ==> r == "0"
    decreases n
  {
    if n < 10 then [DigitChar(n)]
    else
      var p := NatToString(n / 10);
      DigitsValueSnoc(p, DigitChar(n % 10));
      p + [DigitChar(n % 10)]
  }

  /** `s.padStart(2, '0')`. */
  function PadStart2(s: string): (r: string)
    ensures |r| == if |s| < 2 then 2 else |s|
    ensures r[|r| - |s|..] == s
    ensures forall i :: 0 <= i < |r| - |s| ==> r[i] == '0'
  {
    if |s| == 0 then "00" else if |s| == 1 then "0" + s else s
  }

  /** A leading zero does not change the value of a digit string. */
  lemma {:induction false} LeadingZero(s: string)
    requires IsDigits(s)
    ensures IsDigits("0" + s) && DigitsValue("0" + s) == DigitsValue(s)
  {
    if s != [] {
      var t := s[..|s| - 1];
      LeadingZero(t);
      assert ("0" + s)[..|s|] == "0" + t;
    }
  }

  /** `n.toString().padStart(2, '0')` for a value below 100 is exactly two
      digits with that value. */
  lemma Pad2Value(n: nat)
    requires n < 100
    ensures |PadStart2(NatToString(n))| == 2
    ensures IsDigits(PadStart2(NatToString(n)))
    ensures DigitsValue(PadStart2(NatToString(n))) == n
  {
    if n < 10 {
      assert NatToString(n) == [DigitChar(n)];
      LeadingZero(NatToString(n));
    } else {
      assert n / 10 < 10;
      assert NatToString(n / 10) == [DigitChar(n / 10)];
      assert NatToString(n) == [DigitChar(n / 10), DigitChar(n % 10)];
    }
  }

  // ---------------------------------------------------------------------
  // split and join

  /** Concatenates the pieces, putting `sep` between neighbours. */
  function Join(pieces: seq<string>, sep: char): string
    requires |pieces| >= 1
  {
    if |pieces| == 1 then pieces[0] else pieces[0] + [sep] + Join(pieces[1..], sep)
  }

  /** `s.split(sep)` for a one-character separator: the maximal pieces
      between separators, so the empty string gives one empty piece. */
  function Split(s: string, sep: char): (r: seq<string>)
    ensures |r| >= 1
  {
    if s == [] then [""]
    else
      var t := Split(s[1..], sep);
      if s[0] == sep then [""] + t else [[s[0]] + t[0]] + t[1..]
  }

  /** The pieces hold no separator and joining them gives back `s`. */
  lemma {:induction false} SplitPieces(s: string, sep: char)
    ensures forall i :: 0 <= i < |Split(s, sep)| ==> sep !in Split(s, sep)[i]
    ensures Join(Split(s, sep), sep) == s
  {
    if s != [] {
      SplitPieces(s[1..], sep);
      var t := Split(s[1..], sep);
      var r := Split(s, sep);
      if s[0] == sep {
        assert r[1..] == t;
        assert s == [sep] + s[1..];
      } else {
        assert r[1..] == t[1..];
        assert forall i :: 1 <= i < |r| ==> r[i] == t[i];
        assert |t| > 1 ==> t[1..] == (t[1..])[0..] && Join(t, sep) == t[0] + [sep] + Join(t[1..], sep);
        assert s == [s[0]] + s[1..];
      }
    }
  }

  /** The pieces of a separator-free decomposition are recovered by
      splitting their join: `split` and `join` are inverse. */
  lemma {:induction false} SplitJoin(pieces: seq<string>, sep: char)
    requires |pieces| >= 1
    requires forall i :: 0 <= i < |pieces| ==> sep !in pieces[i]
    ensures Split(Join(pieces, sep), sep) == pieces
    decreases |pieces|, |pieces[0]|
  {
    var p := pieces[0];
    if |pieces| == 1 {
      SplitNoSep(p, sep);
    } else if p == [] {
      var rest := pieces[1..];
      SplitJoin(rest, sep);
      assert Join(pieces, sep) == [sep] + Join(rest, sep);
      SplitSepFirst(Join(rest, sep), sep);
      assert [""] + rest == pieces;
    } else {
      var shorter := [p[1..]] + pieces[1..];
      assert shorter[1..] == pieces[1..];
      assert sep !in shorter[0];
      assert forall i :: 1 <= i < |shorter| ==> sep !in shorter[i];
      SplitJoin(shorter, sep);
      JoinFirst(pieces, sep);
      SplitCharFirst(p[0], Join(shorter, sep), sep);
      assert [p[0]] + p[1..] == p;
      assert [p] + pieces[1..] == pieces;
    }
  }

  lemma SplitSepFirst(s: string, sep: char)
    ensures Split([sep] + s, sep) == [""] + Split(s, sep)
  {
    assert ([sep] + s)[1..] == s;
  }

  lemma SplitCharFirst(c: char, s: string, sep: char)
    requires c != sep
    ensures var t := Split(s, sep); Split([c] + s, sep) == [[c] + t[0]] + t[1..]
  {
    assert ([c] + s)[1..] == s;
  }

  /** Moving the first character of the first piece out of the join. */
  lemma JoinFirst(pieces: seq<string>, sep: char)
    requires |pieces| >= 1 && pieces[0] != []
    ensures var p := pieces[0];
            Join(pieces, sep) == [p[0]] + Join([p[1..]] + pieces[1..], sep)
  {
    var p := pieces[0];
    var shorter := [p[1..]] + pieces[1..];
    assert shorter[1..] == pieces[1..];
    assert p == [p[0]] + p[1..];
  }

  lemma {:induction false} SplitNoSep(s: string, sep: char)
    requires sep !in s
    ensures Split(s, sep) == [s]
  {
    if s != [] {
      assert sep !in s[1..] && s[0] != sep;
      SplitNoSep(s[1..], sep);
      assert [s[0]] + s[1..] == s;
    }
  }

  // ---------------------------------------------------------------------
  // trim

  /** The characters `String#trim` and `Number()` strip: the ECMAScript
      WhiteSpace (tab, vertical tab, form feed, space, no-break space,
      byte-order mark, the Zs category) and LineTerminator characters. */
  predicate IsJsSpace(c: char) {
    c == '\t' || c == '\n' || c == '\U{B}' || c == '\U{C}' || c == '\r' || c == ' '
    || c == '\U{A0}' || c == '\U{1680}' || ('\U{2000}' <= c <= '\U{200A}')
    || c == '\U{2028}' || c == '\U{2029}' || c == '\U{202F}' || c == '\U{205F}'
    || c == '\U{3000}' || c == '\U{FEFF}'
  }

  predicate AllSpaces(s: string) {
    forall i :: 0 <= i < |s| ==> IsJsSpace(s[i])
  }

  function TrimStart(s: string): (r: string)
    ensures |r| <= |s|
  {
    if s != [] && IsJsSpace(s[0]) then TrimStart(s[1..]) else s
  }

  function TrimEnd(s: string): (r: string)
    ensures |r| <= |s|
  {
    if s != [] && IsJsSpace(s[|s| - 1]) then TrimEnd(s[..|s| - 1]) else s
  }

  /** `trimStart` drops a prefix of white space and leaves a string that
      does not start with white space. */
  lemma {:induction false} TrimStartFacts(s: string)
    ensures var r := TrimStart(s);
            r == s[|s| - |r|..] && AllSpaces(s[..|s| - |r|]) && (r == [] || !IsJsSpace(r[0]))
  {
    if s != [] && IsJsSpace(s[0]) {
      TrimStartFacts(s[1..]);
      var r := TrimStart(s);
      assert s[..|s| - |r|] == [s[0]] + s[1..][..|s| - 1 - |r|];
    }
  }

  /** `trimEnd` drops a suffix of white space and leaves a string that
      does not end with white space. */
  lemma {:induction false} TrimEndFacts(s: string)
    ensures var r := TrimEnd(s);
            r == s[..|r|] && AllSpaces(s[|r|..]) && (r == [] || !IsJsSpace(r[|r| - 1]))
  {
    if s != [] && IsJsSpace(s[|s| - 1]) {
      var t := s[..|s| - 1];
      TrimEndFacts(t);
      var r := TrimEnd(s);
      assert s[|r|..] == t[|r|..] + [s[|s| - 1]];
    }
  }

  /** `s.trim()`. */
  function Trim(s: string): (r: string)
    ensures |r| <= |s|
  {
    TrimEnd(TrimStart(s))
  }

  /** The result of `trim` neither starts nor ends with white space. */
  lemma TrimEnds(s: string)
    ensures var r := Trim(s);
            r == [] || (!IsJsSpace(r[0]) && !IsJsSpace(r[|r| - 1]))
  {
    var a := TrimStart(s);
    TrimStartFacts(s);
    TrimEndFacts(a);
  }

  /** `s` is the result of `trim` with white space on either side. */
  lemma TrimSurrounding(s: string)
    ensures var r := Trim(s);
            exists i :: 0 <= i <= |s| - |r| && r == s[i..i + |r|]
              && AllSpaces(s[..i]) && AllSpaces(s[i + |r|..])
  {
    var a := TrimStart(s);
    var r := TrimEnd(a);
    TrimStartFacts(s);
    TrimEndFacts(a);
    var i := |s| - |a|;
    assert s[i..i + |r|] == r;
    assert s[i + |r|..] == a[|r|..];
  }

  /** Trimming twice is trimming once: a value stored through Mongoose's
      `trim` setter is already trimmed. */
  lemma TrimIdempotent(s: string)
    ensures Trim(Trim(s)) == Trim(s)
  {
    var t := Trim(s);
    TrimEnds(s);
    TrimNoSpaceEnds(t);
  }

  lemma TrimNoSpaceEnds(t: string)
    requires t == [] || (!IsJsSpace(t[0]) && !IsJsSpace(t[|t| - 1]))
    ensures Trim(t) == t
  {
    assert TrimStart(t) == t;
  }

  /** A digit string contains no white space, so trimming leaves it. */
  lemma TrimDigits(s: string)
    requires IsDigits(s)
    ensures Trim(s) == s
  {
    TrimNoSpaceEnds(s);
  }

  // ---------------------------------------------------------------------
  // length

  /** `s.length`: JavaScript counts UTF-16 code units, so a character
      outside the Basic Multilingual Plane counts twice. */
  function JsLength(s: string): (n: nat)
    ensures |s| <= n <= 2 * |s|
  {
    if s == [] then 0
    else JsLength(s[..|s| - 1]) + (if s[|s| - 1] as int >= 0x1_0000 then 2 else 1)
  }
}
