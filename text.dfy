/**
  The Python string operations the licence engine relies on, modelled on
  `seq<char>`: `str.strip()`, `str.split(',')` with its inverse `','.join`,
  the comprehension that trims and drops blank comma-separated tokens,
  `str.upper()`, and base-10 `int()` with its inverse `str(n)`.
*/
module Text {
  import opened Wrappers

  /** `str.isspace()` for one character (every character Python strips). */
  predicate IsSpace(c: char) {
    c == ' ' || ('\t' <= c <= '\r') || ('\U{1c}' <= c <= '\U{1f}')
    || c == '\U{85}' || c == '\U{a0}' || c == '\U{1680}'
    || ('\U{2000}' <= c <= '\U{200a}') || c == '\U{2028}' || c == '\U{2029}'
    || c == '\U{202f}' || c == '\U{205f}' || c == '\U{3000}'
  }

  predicate AllSpace(s: string) {
    forall k :: 0 <= k < |s| ==> IsSpace(s[k])
  }

  // ---------------------------------------------------------------------
  // str.strip()
  // ---------------------------------------------------------------------

  /** `s.lstrip()`. */
  function TrimStart(s: string): string {
    if s != [] && IsSpace(s[0]) then TrimStart(s[1..]) else s
  }

  /** `s.rstrip()`. */
  function TrimEnd(s: string): string {
    if s != [] && IsSpace(s[|s| - 1]) then TrimEnd(s[..|s| - 1]) else s
  }

  /** `s.strip()`. */
  function Strip(s: string): string {
    TrimEnd(TrimStart(s))
  }

  predicate IsStripped(s: string) {
    s == [] || (!IsSpace(s[0]) && !IsSpace(s[|s| - 1]))
  }

  /** `lstrip` removes exactly the leading whitespace. */
  lemma {:induction false} TrimStartSpec(s: string)
    ensures |TrimStart(s)| <= |s| && TrimStart(s) == s[|s| - |TrimStart(s)|..]
    ensures AllSpace(s[..|s| - |TrimStart(s)|])
    ensures TrimStart(s) != [] ==> !IsSpace(TrimStart(s)[0])
  {
    if s != [] && IsSpace(s[0]) {
      var t := s[1..];
      TrimStartSpec(t);
      var r := TrimStart(t);
      assert TrimStart(s) == r;
      var n := |s| - |r|;
      assert t[|t| - |r|..] == s[n..];
      forall k | 0 <= k < n ensures IsSpace(s[..n][k]) {
        if k > 0 {
          assert s[..n][k] == t[..|t| - |r|][k - 1];
        }
      }
    }
  }

  /** `rstrip` removes exactly the trailing whitespace. */
  lemma {:induction false} TrimEndSpec(s: string)
    ensures |TrimEnd(s)| <= |s| && TrimEnd(s) == s[..|TrimEnd(s)|]
    ensures AllSpace(s[|TrimEnd(s)|..])
    ensures TrimEnd(s) != [] ==> !IsSpace(TrimEnd(s)[|TrimEnd(s)| - 1])
  {
    if s != [] && IsSpace(s[|s| - 1]) {
      var t := s[..|s| - 1];
      TrimEndSpec(t);
      var r := TrimEnd(s);
      assert s[|r|..] == t[|r|..] + [s[|s| - 1]];
    }
  }

  /**
    `s.strip()` is the infix s[i..j] left when every leading and trailing
    whitespace character is removed: it neither starts nor ends with
    whitespace, and it is empty exactly when s is all whitespace.
  */
  lemma StripSpec(s: string)
    ensures exists i, j ::
      (0 <= i <= j <= |s| && Strip(s) == s[i..j] && AllSpace(s[..i]) && AllSpace(s[j..]))
    ensures IsStripped(Strip(s))
    ensures Strip(s) == [] <==> AllSpace(s)
  {
    var t := TrimStart(s);
    var r := TrimEnd(t);
    TrimStartSpec(s);
    TrimEndSpec(t);
    var i := |s| - |t|;
    assert r == s[i..i + |r|];
    assert s[i + |r|..] == t[|r|..];
    assert s == s[..i] + t;
  }

  lemma StripIsStripped(s: string)
    ensures IsStripped(Strip(s))
  {
    StripSpec(s);
  }

  /** Stripping what is already stripped changes nothing. */
  lemma StripStripped(s: string)
    requires IsStripped(s)
    ensures Strip(s) == s
  {
    assert TrimStart(s) == s;
  }

  // ---------------------------------------------------------------------
  // str.split(',') and ','.join
  // ---------------------------------------------------------------------

  /** `','.join(pieces)`. */
  function Join(pieces: seq<string>, sep: string): string {
    if |pieces| == 0 then []
    else if |pieces| == 1 then pieces[0]
    else pieces[0] + sep + Join(pieces[1..], sep)
  }

  /**
    `s.split(',')`: the comma-free pieces between commas. There is always at
    least one piece (`''.split(',') == ['']`) and joining them back with
    commas gives s.
  */
  function SplitCommas(s: string): (pieces: seq<string>)
    ensures |pieces| >= 1
    ensures forall k :: 0 <= k < |pieces| ==> ',' !in pieces[k]
    ensures Join(pieces, ",") == s
  {
    if s == [] then [[]]
    else if s[0] == ',' then [[]] + SplitCommas(s[1..])
    else
      var rest := SplitCommas(s[1..]);
      [[s[0]] + rest[0]] + rest[1..]
  }

  /** Prefixing the first piece with a non-comma character prefixes the joined text with it. */
  lemma JoinCons(c: char, pieces: seq<string>)
    requires |pieces| >= 1
    ensures Join([[c] + pieces[0]] + pieces[1..], ",") == [c] + Join(pieces, ",")
  {
    var longer := [[c] + pieces[0]] + pieces[1..];
    if |pieces| > 1 {
      JoinFirst(longer);
      JoinFirst(pieces);
      assert longer[1..] == pieces[1..];
      ConsAssoc(c, pieces[0], Join(pieces[1..], ","));
    }
  }

  lemma JoinFirst(pieces: seq<string>)
    requires |pieces| > 1
    ensures Join(pieces, ",") == pieces[0] + "," + Join(pieces[1..], ",")
  {
  }

  lemma ConsAssoc(c: char, head: string, tail: string)
    ensures ([c] + head) + "," + tail == [c] + (head + "," + tail)
  {
  }

  lemma SplitCons(c: char, pieces: seq<string>)
    requires c != ',' && |pieces| >= 1 && SplitCommas(Join(pieces, ",")) == pieces
    ensures SplitCommas([c] + Join(pieces, ",")) == [[c] + pieces[0]] + pieces[1..]
  {
    var s := [c] + Join(pieces, ",");
    assert s[1..] == Join(pieces, ",");
  }

  /** Splitting the join of comma-free pieces gives the pieces back. */
  lemma {:induction false} SplitJoin(pieces: seq<string>)
    requires |pieces| >= 1
    requires forall k :: 0 <= k < |pieces| ==> ',' !in pieces[k]
    ensures SplitCommas(Join(pieces, ",")) == pieces
    decreases |pieces|, |pieces[0]|
  {
    var p := pieces[0];
    if |pieces| == 1 && p == [] {
    } else if p == [] {
      SplitJoin(pieces[1..]);
      var s := Join(pieces, ",");
      assert s == "," + Join(pieces[1..], ",");
      assert s[1..] == Join(pieces[1..], ",");
      assert [[]] + pieces[1..] == pieces;
    } else {
      var shorter := [p[1..]] + pieces[1..];
      assert shorter[1..] == pieces[1..];
      assert forall k :: 0 <= k < |shorter| ==> ',' !in shorter[k] by {
        assert ',' !in p;
      }
      SplitJoin(shorter);
      assert p[0] in p;
      SplitCons(p[0], shorter);
      JoinCons(p[0], shorter);
      assert [p[0]] + p[1..] == p;
      assert [[p[0]] + shorter[0]] + shorter[1..] == pieces;
    }
  }

  /** `[x.strip() for x in pieces if x.strip()]`. */
  function CleanTokens(pieces: seq<string>): (tokens: seq<string>)
    ensures |tokens| <= |pieces|
    ensures forall k :: 0 <= k < |tokens| ==> tokens[k] != [] && IsStripped(tokens[k])
  {
    if pieces == [] then []
    else
      var first := Strip(pieces[0]);
      StripIsStripped(pieces[0]);
      (if first == [] then [] else [first]) + CleanTokens(pieces[1..])
  }

  lemma {:induction false} CleanTokensSound(pieces: seq<string>, x: string)
    requires x in CleanTokens(pieces)
    ensures x != [] && exists k :: 0 <= k < |pieces| && Strip(pieces[k]) == x
  {
    var first := Strip(pieces[0]);
    if x != first {
      CleanTokensSound(pieces[1..], x);
      var k :| 0 <= k < |pieces| - 1 && Strip(pieces[1..][k]) == x;
      assert Strip(pieces[k + 1]) == x;
    }
  }

  lemma {:induction false} CleanTokensComplete(pieces: seq<string>, k: int)
    requires 0 <= k < |pieces| && Strip(pieces[k]) != []
    ensures Strip(pieces[k]) in CleanTokens(pieces)
  {
    if k > 0 {
      assert pieces[1..][k - 1] == pieces[k];
      CleanTokensComplete(pieces[1..], k - 1);
    }
  }

  /**
    A token is kept exactly when it is the non-blank stripped form of one of
    the pieces.
  */
  lemma CleanTokensMembers(pieces: seq<string>, x: string)
    ensures x in CleanTokens(pieces) <==>
      x != [] && exists k :: 0 <= k < |pieces| && Strip(pieces[k]) == x
  {
    if x in CleanTokens(pieces) {
      CleanTokensSound(pieces, x);
    }
    if x != [] && exists k :: 0 <= k < |pieces| && Strip(pieces[k]) == x {
      var k :| 0 <= k < |pieces| && Strip(pieces[k]) == x;
      CleanTokensComplete(pieces, k);
    }
  }

  /** No token survives exactly when every piece is blank. */
  lemma {:induction false} CleanTokensAllBlank(pieces: seq<string>)
    ensures CleanTokens(pieces) == [] <==> forall k :: 0 <= k < |pieces| ==> AllSpace(pieces[k])
  {
    if pieces != [] {
      CleanTokensAllBlank(pieces[1..]);
      StripSpec(pieces[0]);
      if CleanTokens(pieces) == [] {
        forall k | 0 <= k < |pieces| ensures AllSpace(pieces[k]) {
          if k > 0 {
            assert pieces[k] == pieces[1..][k - 1];
          }
        }
      }
    }
  }

  lemma {:induction false} JoinMembers(pieces: seq<string>, c: char)
    requires c != ','
    ensures c in Join(pieces, ",") <==> exists k :: 0 <= k < |pieces| && c in pieces[k]
  {
    if |pieces| > 1 {
      JoinMembers(pieces[1..], c);
      assert Join(pieces, ",") == pieces[0] + "," + Join(pieces[1..], ",");
      if exists k :: 0 <= k < |pieces| && c in pieces[k] {
        var k :| 0 <= k < |pieces| && c in pieces[k];
        if k > 0 {
          assert pieces[1..][k - 1] == pieces[k];
        }
      }
      if c in Join(pieces[1..], ",") {
        var k :| 0 <= k < |pieces| - 1 && c in pieces[1..][k];
        assert c in pieces[k + 1];
      }
    }
  }

  /**
    A comma-separated field has no token exactly when it is made only of
    commas and whitespace.
  */
  lemma NoTokensIffBlank(s: string)
    ensures CleanTokens(SplitCommas(s)) == [] <==>
      forall k :: 0 <= k < |s| ==> s[k] == ',' || IsSpace(s[k])
  {
    var pieces := SplitCommas(s);
    CleanTokensAllBlank(pieces);
    if forall k :: 0 <= k < |s| ==> s[k] == ',' || IsSpace(s[k]) {
      forall k | 0 <= k < |pieces| ensures AllSpace(pieces[k]) {
        forall i | 0 <= i < |pieces[k]| ensures IsSpace(pieces[k][i]) {
          var c := pieces[k][i];
          assert c != ',';
          JoinMembers(pieces, c);
        }
      }
    }
    if CleanTokens(pieces) == [] {
      forall i | 0 <= i < |s| ensures s[i] == ',' || IsSpace(s[i]) {
        var c := s[i];
        if c != ',' {
          JoinMembers(pieces, c);
          var k :| 0 <= k < |pieces| && c in pieces[k];
          var j :| 0 <= j < |pieces[k]| && pieces[k][j] == c;
          assert AllSpace(pieces[k]);
        }
      }
    }
  }

  /** Tokens that are already clean pass through unchanged. */
  lemma {:induction false} CleanTokensOfTokens(tokens: seq<string>)
    requires forall k :: 0 <= k < |tokens| ==> tokens[k] != [] && IsStripped(tokens[k])
    ensures CleanTokens(tokens) == tokens
  {
    if tokens != [] {
      CleanTokensOfTokens(tokens[1..]);
      StripStripped(tokens[0]);
    }
  }

  /**
    Joining clean comma-free tokens with commas and reading the field back
    gives the same tokens, in the same order.
  */
  lemma TokensRoundTrip(tokens: seq<string>)
    requires forall k :: 0 <= k < |tokens| ==> tokens[k] != [] && IsStripped(tokens[k]) && ',' !in tokens[k]
    ensures CleanTokens(SplitCommas(Join(tokens, ","))) == tokens
  {
    if tokens == [] {
      assert SplitCommas("") == [""];
      StripSpec("");
    } else {
      SplitJoin(tokens);
      CleanTokensOfTokens(tokens);
    }
  }

  // ---------------------------------------------------------------------
  // str.upper()
  // ---------------------------------------------------------------------

  /**
    Upper-casing of one character: ASCII and Latin-1 letters, including the
    expansion of 'ß' to "SS"; other characters are left as they are.
  */
  function UpperChar(c: char): string {
    if 'a' <= c <= 'z' then [(c as int - 32) as char]
    else if ('\U{e0}' <= c <= '\U{fe}') && c != '\U{f7}' then [(c as int - 32) as char]
    else if c == '\U{df}' then "SS"
    else if c == '\U{ff}' then ['\U{178}']
    else if c == '\U{b5}' then ['\U{39c}']
    else [c]
  }

  function Upper(s: string): string {
    if s == [] then [] else Upper(s[..|s| - 1]) + UpperChar(s[|s| - 1])
  }

  /** A string that `upper()` leaves as it is. */
  predicate UpperFixed(s: string) {
    forall k :: 0 <= k < |s| ==> UpperChar(s[k]) == [s[k]]
  }

  lemma {:induction false} UpperAppend(a: string, b: string)
    ensures Upper(a + b) == Upper(a) + Upper(b)
    decreases |b|
  {
    if b != [] {
      var b' := b[..|b| - 1];
      assert (a + b)[..|a + b| - 1] == a + b';
      UpperAppend(a, b');
    } else {
      assert a + b == a;
    }
  }

  lemma {:induction false} UpperOfFixed(s: string)
    requires UpperFixed(s)
    ensures Upper(s) == s
  {
    if s != [] {
      UpperOfFixed(s[..|s| - 1]);
    }
  }

  /** Every character `upper()` produces is already upper case. */
  lemma {:induction false} UpperIsFixed(s: string)
    ensures UpperFixed(Upper(s))
  {
    if s != [] {
      UpperIsFixed(s[..|s| - 1]);
      var c := s[|s| - 1];
      var u := UpperChar(c);
      assert UpperFixed(u);
      var r := Upper(s);
      var prefix := Upper(s[..|s| - 1]);
      assert r == prefix + u;
      forall k | 0 <= k < |r| ensures UpperChar(r[k]) == [r[k]] {
        if k < |prefix| {
          assert r[k] == prefix[k];
        } else {
          assert r[k] == u[k - |prefix|];
        }
      }
    }
  }

  lemma AllSpaceAppend(a: string, b: string)
    ensures AllSpace(a + b) <==> AllSpace(a) && AllSpace(b)
  {
    if AllSpace(a + b) {
      forall k | 0 <= k < |a| ensures IsSpace(a[k]) {
        assert (a + b)[k] == a[k];
      }
      forall k | 0 <= k < |b| ensures IsSpace(b[k]) {
        assert (a + b)[|a| + k] == b[k];
      }
    }
    if AllSpace(a) && AllSpace(b) {
      forall k | 0 <= k < |a + b| ensures IsSpace((a + b)[k]) {
        if k < |a| { assert (a + b)[k] == a[k]; } else { assert (a + b)[k] == b[k - |a|]; }
      }
    }
  }

  lemma UpperCharSpace(c: char)
    ensures AllSpace(UpperChar(c)) <==> IsSpace(c)
  {
    assert UpperChar(c)[0] == c || !IsSpace(UpperChar(c)[0]);
  }

  /** `upper()` leaves whitespace as it is and keeps other characters non-blank. */
  lemma {:induction false} UpperKeepsSpace(s: string)
    ensures AllSpace(Upper(s)) <==> AllSpace(s)
  {
    if s != [] {
      var init, c := s[..|s| - 1], s[|s| - 1];
      UpperKeepsSpace(init);
      AllSpaceAppend(Upper(init), UpperChar(c));
      UpperCharSpace(c);
      assert s == init + [c];
      AllSpaceAppend(init, [c]);
    }
  }

  // ---------------------------------------------------------------------
  // int() in base 10 and its inverse str(n)
  // ---------------------------------------------------------------------

  predicate IsDigit(c: char) {
    '0' <= c <= '9'
  }

  predicate AllDigits(s: string) {
    forall k :: 0 <= k < |s| ==> IsDigit(s[k])
  }

  /** The value of a string of decimal digits (most significant first). */
  function DigitsValue(s: string): (n: nat)
    requires AllDigits(s)
  {
    if s == [] then 0 else DigitsValue(s[..|s| - 1]) * 10 + (s[|s| - 1] as int - '0' as int)
  }

  /**
    Digits with optional single underscores between them, as `int()`
    accepts after the sign: "1_000" but not "_1", "1_" or "1__0".
  */
  predicate IsDigitGroups(s: string) {
    |s| >= 1 && IsDigit(s[0]) && IsDigit(s[|s| - 1])
    && (forall k :: 0 <= k < |s| ==> IsDigit(s[k]) || s[k] == '_')
    && (forall k :: 0 <= k < |s| - 1 ==> !(s[k] == '_' && s[k + 1] == '_'))
  }

  function DropUnderscores(s: string): (r: string)
    requires forall k :: 0 <= k < |s| ==> IsDigit(s[k]) || s[k] == '_'
    ensures AllDigits(r)
  {
    if s == [] then []
    else if s[|s| - 1] == '_' then DropUnderscores(s[..|s| - 1])
    else DropUnderscores(s[..|s| - 1]) + [s[|s| - 1]]
  }

  /**
    `int(s)` for an already stripped string: an optional sign and digit
    groups; anything else makes `int()` raise ValueError, modelled as None.
  */
  function ParseInt(s: string): (r: Option<int>)
  {
    if |s| >= 1 && (s[0] == '+' || s[0] == '-') then
      var body := s[1..];
      if IsDigitGroups(body) then
        var v: int := DigitsValue(DropUnderscores(body));
        Some(if s[0] == '-' then -v else v)
      else None
    else if IsDigitGroups(s) then Some(DigitsValue(DropUnderscores(s)))
    else None
  }

  function DigitChar(d: int): char
    requires 0 <= d < 10
  {
    ('0' as int + d) as char
  }

  /** `str(n)` for n >= 0. */
  function ShowNat(n: nat): (s: string)
    ensures |s| >= 1 && AllDigits(s)
  {
    if n < 10 then [DigitChar(n)] else ShowNat(n / 10) + [DigitChar(n % 10)]
  }

  /** `str(n)`. */
  function Show(n: int): string {
    if n < 0 then "-" + ShowNat(-n) else ShowNat(n)
  }

  lemma {:induction false} ShowNatValue(n: nat)
    ensures DigitsValue(ShowNat(n)) == n
  {
    if n >= 10 {
      ShowNatValue(n / 10);
      var s := ShowNat(n);
      assert s[..|s| - 1] == ShowNat(n / 10);
    }
  }

  lemma {:induction false} DropUnderscoresOfDigits(s: string)
    requires AllDigits(s)
    ensures DropUnderscores(s) == s
  {
    if s != [] {
      DropUnderscoresOfDigits(s[..|s| - 1]);
    }
  }

  lemma DigitsAreGroups(s: string)
    requires |s| >= 1 && AllDigits(s)
    ensures IsDigitGroups(s)
  {
  }

  /** `int(str(n)) == n`: every integer survives printing and parsing. */
  lemma ParseShow(n: int)
    ensures ParseInt(Show(n)) == Some(n)
  {
    var m: nat := if n < 0 then -n else n;
    var digits := ShowNat(m);
    ShowNatValue(m);
    DropUnderscoresOfDigits(digits);
    DigitsAreGroups(digits);
    if n < 0 {
      assert Show(n) == "-" + digits;
      assert Show(n)[1..] == digits;
    } else {
      assert Show(n) == digits;
      assert IsDigit(digits[0]);
    }
  }

  /** What `str(n)` prints needs no stripping and holds no comma. */
  lemma ShowIsToken(n: int)
    ensures Show(n) != [] && IsStripped(Show(n)) && ',' !in Show(n)
  {
    var digits := ShowNat(if n < 0 then -n else n);
    assert !IsSpace(digits[|digits| - 1]);
    assert forall k :: 0 <= k < |digits| ==> digits[k] != ',';
  }
}
