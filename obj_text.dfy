/**
 * Text handling behind `ObjFileParser.ParseFile`: the line normalisation
 * `Regex.Replace(line.Trim().Replace('.', ','), @"\s+", " ")`, the
 * `string.Split(char)` used on lines and face tokens, and `int.Parse` as it
 * behaves on the whitespace-free tokens that normalisation leaves.
 */
module ObjText {
  import opened Wrappers

  /** The .NET exceptions the parser can raise, one constructor per kind. */
  datatype Fault =
    | FormatError          // FormatException from int.Parse / float.Parse
    | OverflowError        // OverflowException from int.Parse
    | IndexOutOfRange      // IndexOutOfRangeException from an array index
    | ArgumentOutOfRange   // ArgumentOutOfRangeException from a Vector constructor

  /** The characters that `Trim()` removes and that `\s` matches. */
  predicate IsWhiteSpace(c: char) {
    c == ' ' || c == '\t' || c == '\n' || c == '\U{0B}' || c == '\U{0C}' || c == '\r'
    || c == '\U{85}' || c == '\U{A0}'
  }

  /** `TrimStart()`: drops the leading run of whitespace. */
  function TrimStart(s: string): (r: string)
    ensures |r| <= |s| && r == s[|s| - |r|..]
    ensures r == [] || !IsWhiteSpace(r[0])
    ensures forall i :: 0 <= i < |s| - |r| ==> IsWhiteSpace(s[i])
  {
    if s != [] && IsWhiteSpace(s[0]) then TrimStart(s[1..]) else s
  }

  /** `TrimEnd()`: drops the trailing run of whitespace. */
  function TrimEnd(s: string): (r: string)
    ensures |r| <= |s| && r == s[..|r|]
    ensures r == [] || !IsWhiteSpace(r[|r| - 1])
    ensures forall i :: |r| <= i < |s| ==> IsWhiteSpace(s[i])
  {
    if s != [] && IsWhiteSpace(s[|s| - 1]) then TrimEnd(s[..|s| - 1]) else s
  }

  /** `Trim()`: both ends. */
  function Trim(s: string): (r: string)
    ensures r == [] || (!IsWhiteSpace(r[0]) && !IsWhiteSpace(r[|r| - 1]))
  {
    TrimEnd(TrimStart(s))
  }

  /** `Replace('.', ',')`. */
  function ReplaceDots(s: string): (r: string)
    ensures |r| == |s| && '.' !in r
    ensures forall i :: 0 <= i < |s| && s[i] != '.' ==> r[i] == s[i]
    ensures forall i :: 0 <= i < |s| && s[i] == '.' ==> r[i] == ','
  {
    seq(|s|, i requires 0 <= i < |s| => if s[i] == '.' then ',' else s[i])
  }

  /** The characters of s that are not whitespace, in order. */
  function Visible(s: string): string {
    if s == [] then []
    else if IsWhiteSpace(s[0]) then Visible(s[1..])
    else [s[0]] + Visible(s[1..])
  }

  /** Every character is either the plain space or not whitespace at all. */
  predicate OnlyPlainSpaces(s: string) {
    forall i :: 0 <= i < |s| ==> s[i] == ' ' || !IsWhiteSpace(s[i])
  }

  /** No two neighbouring characters are both spaces. */
  predicate NoDoubleSpace(s: string) {
    forall i :: 0 <= i < |s| - 1 ==> !(s[i] == ' ' && s[i + 1] == ' ')
  }

  /** `Regex.Replace(s, @"\s+", " ")`: each maximal whitespace run becomes one space. */
  function Collapse(s: string): (r: string)
    decreases |s|
    ensures OnlyPlainSpaces(r) && NoDoubleSpace(r)
    ensures (r == []) == (s == [])
    ensures r != [] ==> ((r[0] == ' ') == IsWhiteSpace(s[0]))
  {
    if s == [] then []
    else if IsWhiteSpace(s[0]) then [' '] + Collapse(TrimStart(s[1..]))
    else [s[0]] + Collapse(s[1..])
  }

  /** Collapsing keeps every visible character, in order. */
  lemma {:induction false} CollapseVisible(s: string)
    decreases |s|
    ensures Visible(Collapse(s)) == Visible(s)
  {
    if s != [] {
      if IsWhiteSpace(s[0]) {
        var rest := TrimStart(s[1..]);
        CollapseVisible(rest);
        VisibleOfWhiteSpacePrefix(s[1..], |s[1..]| - |rest|);
        assert Collapse(s) == [' '] + Collapse(rest);
      } else {
        CollapseVisible(s[1..]);
        assert Collapse(s) == [s[0]] + Collapse(s[1..]);
      }
    }
  }

  /** The collapsed text ends in a space exactly when s ends in whitespace. */
  lemma {:induction false} CollapseLast(s: string)
    decreases |s|
    requires s != []
    ensures var r := Collapse(s); (r[|r| - 1] == ' ') == IsWhiteSpace(s[|s| - 1])
  {
    if IsWhiteSpace(s[0]) {
      var rest := TrimStart(s[1..]);
      if rest != [] {
        CollapseLast(rest);
        assert rest[|rest| - 1] == s[|s| - 1];
      }
    } else if |s| > 1 {
      CollapseLast(s[1..]);
    }
  }

  /** Collapsing introduces no character other than ' '. */
  lemma {:induction false} CollapseChars(s: string)
    decreases |s|
    ensures forall i :: 0 <= i < |Collapse(s)| && Collapse(s)[i] != ' ' ==> Collapse(s)[i] in s
  {
    if s != [] {
      var r := Collapse(s);
      if IsWhiteSpace(s[0]) {
        var rest := TrimStart(s[1..]);
        CollapseChars(rest);
        forall i | 0 <= i < |r| && r[i] != ' ' ensures r[i] in s {
          assert r[i] == Collapse(rest)[i - 1];
          assert r[i] in rest;
        }
      } else {
        CollapseChars(s[1..]);
        forall i | 0 <= i < |r| && r[i] != ' ' ensures r[i] in s {
          if i > 0 {
            assert r[i] == Collapse(s[1..])[i - 1];
            assert r[i] in s[1..];
          }
        }
      }
    }
  }

  /** Dropping a whitespace-only prefix keeps the visible characters. */
  lemma {:induction false} VisibleOfWhiteSpacePrefix(s: string, k: nat)
    requires k <= |s|
    requires forall i :: 0 <= i < k ==> IsWhiteSpace(s[i])
    ensures Visible(s[k..]) == Visible(s)
  {
    if k > 0 {
      assert s[1..][k - 1..] == s[k..];
      VisibleOfWhiteSpacePrefix(s[1..], k - 1);
    }
  }

  /** No character of s is whitespace. */
  predicate NoWhiteSpace(s: string) {
    forall i :: 0 <= i < |s| ==> !IsWhiteSpace(s[i])
  }

  /** Every character of s is whitespace. */
  predicate AllWhiteSpace(s: string) {
    forall i :: 0 <= i < |s| ==> IsWhiteSpace(s[i])
  }

  /** A word without whitespace is left as it is. */
  lemma {:induction false} CollapseWord(a: string)
    requires NoWhiteSpace(a)
    ensures Collapse(a) == a
  {
    if a != [] {
      CollapseWord(a[1..]);
      assert [a[0]] + a[1..] == a;
    }
  }

  /** `TrimStart` removes a whitespace run in front of a visible character. */
  lemma {:induction false} TrimStartRun(w: string, b: string)
    requires AllWhiteSpace(w)
    requires b == [] || !IsWhiteSpace(b[0])
    ensures TrimStart(w + b) == b
  {
    if w != [] {
      assert (w + b)[1..] == w[1..] + b;
      TrimStartRun(w[1..], b);
    } else {
      assert w + b == b;
    }
  }

  /**
   * A word, then a whitespace run, then the rest: the word is kept and the
   * run becomes exactly one space in its place.
   */
  lemma {:induction false} CollapseWordThenRun(a: string, w: string, b: string)
    requires NoWhiteSpace(a)
    requires w != [] && AllWhiteSpace(w)
    requires b == [] || !IsWhiteSpace(b[0])
    ensures Collapse(a + w + b) == a + [' '] + Collapse(b)
  {
    if a == [] {
      assert a + w + b == w + b;
      assert (w + b)[1..] == w[1..] + b;
      TrimStartRun(w[1..], b);
    } else {
      assert (a + w + b)[1..] == a[1..] + w + b;
      CollapseWordThenRun(a[1..], w, b);
      assert [a[0]] + a[1..] == a;
    }
  }

  /**
   * Words separated by whitespace runs: after collapsing, the split on ' '
   * gives the first word and then the words of the rest.
   */
  lemma CollapseSplitsWords(a: string, w: string, b: string)
    requires NoWhiteSpace(a)
    requires w != [] && AllWhiteSpace(w)
    requires b == [] || !IsWhiteSpace(b[0])
    ensures Split(Collapse(a + w + b), ' ') == [a] + Split(Collapse(b), ' ')
  {
    CollapseWordThenRun(a, w, b);
    assert forall i :: 0 <= i < |a| ==> a[i] != ' ';
    SplitPrefix(a, ' ', Collapse(b));
  }

  /** The normalised form of a line as `ParseFile` computes it. */
  function Normalize(line: string): string {
    Collapse(ReplaceDots(Trim(line)))
  }

  /** What normalisation guarantees about the line that is then split on ' '. */
  lemma NormalizedShape(line: string)
    ensures var n := Normalize(line);
      '.' !in n && OnlyPlainSpaces(n) && NoDoubleSpace(n)
      && (n == [] || (n[0] != ' ' && n[|n| - 1] != ' '))
      && Visible(n) == Visible(ReplaceDots(Trim(line)))
  {
    var t := ReplaceDots(Trim(line));
    ReplacedEnds(line);
    CollapseVisible(t);
    CollapseNoDots(t);
    if t != [] {
      CollapseLast(t);
    }
  }

  /** The trimmed line, its dots replaced, still starts and ends with a visible character. */
  lemma ReplacedEnds(line: string)
    ensures var t := ReplaceDots(Trim(line));
      t == [] || (!IsWhiteSpace(t[0]) && !IsWhiteSpace(t[|t| - 1]))
  {
    var r := Trim(line);
    var t := ReplaceDots(r);
    if t != [] {
      assert t[0] == r[0] || t[0] == ',';
      assert t[|t| - 1] == r[|r| - 1] || t[|t| - 1] == ',';
    }
  }

  /** Collapsing a dot-free text leaves it dot-free. */
  lemma CollapseNoDots(t: string)
    requires '.' !in t
    ensures '.' !in Collapse(t)
  {
    var n := Collapse(t);
    CollapseChars(t);
    forall i | 0 <= i < |n| ensures n[i] != '.' {
      if n[i] != ' ' {
        assert n[i] in t;
      }
    }
  }

  /** `string.Split(c)`: the pieces between occurrences of c, empty ones included. */
  function Split(s: string, c: char): (r: seq<string>)
    ensures |r| >= 1
    ensures forall k :: 0 <= k < |r| ==> c !in r[k]
  {
    if s == [] then [[]]
    else
      var rest := Split(s[1..], c);
      if s[0] == c then [[]] + rest
      else [[s[0]] + rest[0]] + rest[1..]
  }

  /** Every character of every piece comes from the split text. */
  lemma {:induction false} SplitPiecesFromText(s: string, c: char)
    ensures forall k, i :: 0 <= k < |Split(s, c)| && 0 <= i < |Split(s, c)[k]| ==> Split(s, c)[k][i] in s
  {
    if s != [] {
      SplitPiecesFromText(s[1..], c);
      var r, rest := Split(s, c), Split(s[1..], c);
      forall k, i | 0 <= k < |r| && 0 <= i < |r[k]| ensures r[k][i] in s {
        if s[0] == c {
          assert r[k] == rest[k - 1];
          assert r[k][i] in s[1..];
        } else if k == 0 {
          if i > 0 {
            assert r[k][i] == rest[0][i - 1];
            assert r[k][i] in s[1..];
          }
        } else {
          assert r[k] == rest[k];
          assert r[k][i] in s[1..];
        }
      }
    }
  }

  /** `string.Join(c, parts)`. */
  function Join(parts: seq<string>, c: char): string {
    if parts == [] then []
    else if |parts| == 1 then parts[0]
    else parts[0] + [c] + Join(parts[1..], c)
  }

  /** Splitting and joining back gives the original text. */
  lemma {:induction false} JoinSplit(s: string, c: char)
    ensures Join(Split(s, c), c) == s
  {
    if s != [] {
      var rest := Split(s[1..], c);
      JoinSplit(s[1..], c);
      if s[0] != c {
        if |rest| == 1 {
          assert Split(s, c) == [[s[0]] + rest[0]];
        } else {
          assert Split(s, c)[1..] == rest[1..];
        }
      }
    }
  }

  /** Joining pieces free of c and splitting again gives the pieces back. */
  lemma {:induction false} SplitJoin(parts: seq<string>, c: char)
    requires |parts| >= 1
    requires forall k :: 0 <= k < |parts| ==> c !in parts[k]
    ensures Split(Join(parts, c), c) == parts
  {
    if |parts| == 1 {
      SplitNoSeparator(parts[0], c);
    } else {
      SplitJoin(parts[1..], c);
      SplitPrefix(parts[0], c, Join(parts[1..], c));
      assert [parts[0]] + parts[1..] == parts;
    }
  }

  lemma {:induction false} SplitNoSeparator(s: string, c: char)
    requires c !in s
    ensures Split(s, c) == [s]
  {
    if s != [] {
      SplitNoSeparator(s[1..], c);
      assert [s[0]] + s[1..] == s;
    }
  }

  /** A separator-free head followed by the separator splits off as one piece. */
  lemma {:induction false} SplitPrefix(p: string, c: char, t: string)
    requires c !in p
    ensures Split(p + [c] + t, c) == [p] + Split(t, c)
  {
    if p != [] {
      assert (p + [c] + t)[1..] == p[1..] + [c] + t;
      SplitPrefix(p[1..], c, t);
      assert [p[0]] + p[1..] == p;
    } else {
      assert (p + [c] + t)[1..] == t;
    }
  }

  /**
   * Splitting a text that neither starts nor ends with the separator and
   * never repeats it gives only non-empty pieces.
   */
  lemma {:induction false} SplitPiecesNonEmpty(s: string, c: char)
    requires s != [] && s[0] != c && s[|s| - 1] != c
    requires forall i :: 0 <= i < |s| - 1 ==> !(s[i] == c && s[i + 1] == c)
    ensures forall k :: 0 <= k < |Split(s, c)| ==> Split(s, c)[k] != []
  {
    if |s| > 1 {
      var t := s[1..];
      if t[0] == c {
        assert s[1] == c;
        var u := t[1..];
        assert u != [] && u[0] != c;
        SplitPiecesNonEmpty(u, c);
        assert Split(t, c) == [[]] + Split(u, c);
      } else {
        SplitPiecesNonEmpty(t, c);
      }
    }
  }

  /**
   * The tokens of a non-empty normalised line are non-empty and contain
   * neither whitespace nor a '.'.
   */
  lemma NormalizedTokens(line: string)
    requires Normalize(line) != []
    ensures var parts := Split(Normalize(line), ' ');
      forall k :: 0 <= k < |parts| ==>
        parts[k] != [] && '.' !in parts[k]
        && forall i :: 0 <= i < |parts[k]| ==> !IsWhiteSpace(parts[k][i])
  {
    var n := Normalize(line);
    NormalizedShape(line);
    SplitPiecesNonEmpty(n, ' ');
    SplitPiecesFromText(n, ' ');
  }

  // int.Parse with NumberStyles.Integer: an optional sign, then decimal
  // digits, then any run of '\0' characters, which .NET's number parser
  // accepts after the digits; the whitespace it would also skip never
  // survives normalisation.

  const Int32Min: int := -0x8000_0000
  const Int32Max: int := 0x7FFF_FFFF

  predicate IsDigit(c: char) {
    '0' <= c <= '9'
  }

  predicate AllDigits(s: string) {
    forall i :: 0 <= i < |s| ==> IsDigit(s[i])
  }

  /** The value of a run of decimal digits, most significant first. */
  function DigitsValue(s: string): nat
    requires AllDigits(s)
  {
    if s == [] then 0
    else DigitsValue(s[..|s| - 1]) * 10 + (s[|s| - 1] as int - '0' as int)
  }

  /** s without its trailing run of '\0' characters. */
  function DropTrailingNuls(s: string): (r: string)
    ensures r <= s && (r == [] || r[|r| - 1] != '\0')
    ensures forall i :: |r| <= i < |s| ==> s[i] == '\0'
  {
    if s != [] && s[|s| - 1] == '\0' then DropTrailingNuls(s[..|s| - 1]) else s
  }

  /** The text after an optional leading '-' or '+'. */
  function Unsigned(s: string): string {
    if s != [] && (s[0] == '-' || s[0] == '+') then s[1..] else s
  }

  /** A sign, at least one decimal digit, then only '\0' characters, if s is that. */
  predicate IsIntegerText(s: string) {
    var digits := DropTrailingNuls(Unsigned(s));
    digits != [] && AllDigits(digits)
  }

  /** `int.Parse(s)`: a 32-bit value, FormatException or OverflowException. */
  function ParseInt(s: string): (r: Result<int, Fault>)
    ensures r.Ok? ==> Int32Min <= r.value <= Int32Max
    ensures r == Err(FormatError) <==> !IsIntegerText(s)
    ensures r.Ok? || r == Err(FormatError) || r == Err(OverflowError)
  {
    var negative := s != [] && s[0] == '-';
    var digits := DropTrailingNuls(Unsigned(s));
    if digits == [] || !AllDigits(digits) then Err(FormatError)
    else
      var d: int := DigitsValue(digits);
      var v := if negative then -d else d;
      if v < Int32Min || Int32Max < v then Err(OverflowError) else Ok(v)
  }

  /** A run of n '\0' characters. */
  function Nuls(n: nat): (r: string)
    ensures |r| == n && forall i :: 0 <= i < n ==> r[i] == '\0'
  {
    seq(n, _ => '\0')
  }

  /** Trailing '\0' characters change nothing: `int.Parse("1\0")` is 1, like `int.Parse("1")`. */
  lemma ParseIntIgnoresTrailingNuls(s: string, n: nat)
    ensures ParseInt(s + Nuls(n)) == ParseInt(s)
  {
    if s == [] {
      assert s + Nuls(n) == [] + Nuls(n);
      NulsDropped([], n);
    } else {
      UnsignedAppend(s, Nuls(n));
      NulsDropped(Unsigned(s), n);
    }
  }

  /** Text appended after the first character passes through the sign. */
  lemma UnsignedAppend(s: string, x: string)
    requires s != []
    ensures (s + x)[0] == s[0] && Unsigned(s + x) == Unsigned(s) + x
  {
    if s[0] == '-' || s[0] == '+' {
      assert (s + x)[1..] == s[1..] + x;
    }
  }

  /** Dropping the trailing '\0' run of s followed by n more gives the same as for s. */
  lemma {:induction false} NulsDropped(s: string, n: nat)
    ensures DropTrailingNuls(s + Nuls(n)) == DropTrailingNuls(s)
    decreases n
  {
    if n == 0 {
      assert s + Nuls(0) == s;
    } else {
      var t := s + Nuls(n);
      assert t[|t| - 1] == '\0';
      assert t[..|t| - 1] == s + Nuls(n - 1);
      NulsDropped(s, n - 1);
    }
  }

  /** The decimal digits of n, as `int.ToString()` writes them. */
  function Digits(n: nat): (r: string)
    ensures r != [] && AllDigits(r)
  {
    if n < 10 then [('0' as int + n) as char]
    else Digits(n / 10) + [('0' as int + n % 10) as char]
  }

  /** The text of a 32-bit integer: a '-' for negatives, then its digits. */
  function FormatInt(n: int): string {
    if n < 0 then "-" + Digits(-n) else Digits(n)
  }

  lemma {:induction false} DigitsValueOfDigits(n: nat)
    ensures DigitsValue(Digits(n)) == n
  {
    if n >= 10 {
      DigitsValueOfDigits(n / 10);
      var d := Digits(n);
      assert d[..|d| - 1] == Digits(n / 10);
    }
  }

  /** `int.Parse` reads back every 32-bit value that `ToString` writes. */
  lemma ParseFormatRoundTrip(n: int)
    requires Int32Min <= n <= Int32Max
    ensures ParseInt(FormatInt(n)) == Ok(n)
  {
    var s := FormatInt(n);
    if n < 0 {
      DigitsValueOfDigits(-n);
      assert s[0] == '-' && Unsigned(s) == Digits(-n);
      assert IsDigit(Digits(-n)[|Digits(-n)| - 1]);
    } else {
      DigitsValueOfDigits(n);
      assert IsDigit(s[0]) && Unsigned(s) == s;
      assert IsDigit(s[|s| - 1]);
    }
  }

  /** `int.Parse` raises OverflowException for a decimal text outside the 32-bit range. */
  lemma ParseFormatOverflow(n: int)
    requires n < Int32Min || Int32Max < n
    ensures ParseInt(FormatInt(n)) == Err(OverflowError)
  {
    var s := FormatInt(n);
    if n < 0 {
      DigitsValueOfDigits(-n);
      assert s[0] == '-' && Unsigned(s) == Digits(-n);
      assert IsDigit(Digits(-n)[|Digits(-n)| - 1]);
    } else {
      DigitsValueOfDigits(n);
      assert IsDigit(s[0]) && Unsigned(s) == s;
      assert IsDigit(s[|s| - 1]);
    }
  }
}
