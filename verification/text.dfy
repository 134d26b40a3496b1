/**
 * The JavaScript string operations the modelled code relies on, written out
 * over `seq<char>`: truthiness, decimal rendering and `BigInt` parsing,
 * `split`, `join`, `trim`, `substring`, `padStart`/`padEnd` and the
 * `replace(/[^...]/g, '')` character filter.
 */
module Text {
  import opened Wrappers

  /** JavaScript truthiness of a value that is either a string or undefined. */
  predicate Truthy(s: Option<string>) {
    s.Some? && s.value != ""
  }

  predicate IsDigit(c: char) {
    '0' <= c <= '9'
  }

  predicate AllDigits(s: string) {
    forall i :: 0 <= i < |s| ==> IsDigit(s[i])
  }

  function DigitChar(d: nat): (c: char)
    requires d < 10
    ensures IsDigit(c) && c as int - '0' as int == d
  {
    ('0' as int + d) as char
  }

  function DigitValue(c: char): (d: nat)
    requires IsDigit(c)
    ensures d < 10 && DigitChar(d) == c
  {
    c as int - '0' as int
  }

  // ---------------------------------------------------------------------
  // Decimal numbers

  /** `n.toString()` for a non-negative integer: digits, no leading zero. */
  function NatToDecimal(n: nat): (s: string)
    ensures |s| >= 1 && AllDigits(s)
    ensures s[0] == '0' ==> n == 0 && s == "0"
    decreases n
  {
    if n < 10 then [DigitChar(n)] else NatToDecimal(n / 10) + [DigitChar(n % 10)]
  }

  /** The value of a string of decimal digits (the empty string is 0). */
  function DecimalValue(s: string): nat
    requires AllDigits(s)
    decreases |s|
  {
    if s == "" then 0 else DecimalValue(s[..|s| - 1]) * 10 + DigitValue(s[|s| - 1])
  }

  lemma {:induction false} DecimalRoundTrip(n: nat)
    ensures DecimalValue(NatToDecimal(n)) == n
    decreases n
  {
    if n >= 10 {
      DecimalRoundTrip(n / 10);
      var s := NatToDecimal(n);
      assert s[..|s| - 1] == NatToDecimal(n / 10);
    }
  }

  /** `i.toString()` for an integer (a `number` holding an integer, or a `BigInt`). */
  function IntToDecimal(i: int): (s: string)
    ensures |s| >= 1
  {
    if i < 0 then "-" + NatToDecimal(-i) else NatToDecimal(i)
  }

  /**
   * `BigInt(s)` for a string made only of digits and '-': the empty string is
   * 0n, an optional leading '-' must be followed by at least one digit, and
   * anything else throws a SyntaxError (None here).
   */
  function ParseBigInt(s: string): Option<int> {
    if s == "" then Some(0)
    else if s[0] == '-' then
      if |s| > 1 && AllDigits(s[1..]) then Some(0 - DecimalValue(s[1..])) else None
    else if AllDigits(s) then Some(DecimalValue(s))
    else None
  }

  /** A decimal is made of digits and at most a leading '-'. */
  lemma IntToDecimalChars(i: int)
    ensures var s := IntToDecimal(i);
            forall k :: 0 <= k < |s| ==> IsDigit(s[k]) || s[k] == '-'
  {
    if i < 0 {
      var digits := NatToDecimal(-i);
      assert forall k :: 1 <= k < |"-" + digits| ==> ("-" + digits)[k] == digits[k - 1];
    }
  }

  /** `BigInt(String(n))` gives back `n`. */
  lemma IntDecimalRoundTrip(i: int)
    ensures ParseBigInt(IntToDecimal(i)) == Some(i)
  {
    if i < 0 {
      NegativeDecimal(NatToDecimal(-i));
      DecimalRoundTrip(-i);
    } else {
      UnsignedDecimal(NatToDecimal(i));
      DecimalRoundTrip(i);
    }
  }

  /** Digits without a sign parse to their value. */
  lemma UnsignedDecimal(digits: string)
    requires digits != "" && AllDigits(digits)
    ensures ParseBigInt(digits) == Some(DecimalValue(digits))
  {
    assert IsDigit(digits[0]);
  }

  /** A '-' followed by digits parses to minus their value. */
  lemma NegativeDecimal(digits: string)
    requires digits != "" && AllDigits(digits)
    ensures ParseBigInt("-" + digits) == Some(0 - DecimalValue(digits))
  {
    var s := "-" + digits;
    assert s[0] == '-' && s[1..] == digits;
  }

  lemma AppendAssoc<T>(a: seq<T>, b: seq<T>, c: seq<T>)
    ensures a + b + c == a + (b + c)
  {
  }

  // ---------------------------------------------------------------------
  // split and join

  /** `s.indexOf(c)`. */
  function IndexOf(s: string, c: char): (i: int)
    ensures -1 <= i < |s|
    ensures i >= 0 ==> s[i] == c && forall j :: 0 <= j < i ==> s[j] != c
    ensures i == -1 <==> c !in s
    decreases |s|
  {
    if s == "" then -1
    else if s[0] == c then 0
    else
      var k := IndexOf(s[1..], c);
      if k < 0 then -1 else k + 1
  }

  /** `s.split(sep)` for a one-character separator. */
  function Split(s: string, sep: char): (pieces: seq<string>)
    ensures |pieces| >= 1
    decreases |s|
  {
    var i := IndexOf(s, sep);
    if i < 0 then [s] else [s[..i]] + Split(s[i + 1..], sep)
  }

  /** `pieces.join(sep)`. */
  function Join(pieces: seq<string>, sep: char): string
    decreases |pieces|
  {
    if |pieces| <= 1 then (if pieces == [] then "" else pieces[0])
    else pieces[0] + [sep] + Join(pieces[1..], sep)
  }

  lemma JoinCons(head: string, rest: seq<string>, sep: char)
    requires |rest| >= 1
    ensures Join([head] + rest, sep) == head + [sep] + Join(rest, sep)
  {
    assert ([head] + rest)[1..] == rest;
  }

  /** One step of `Split`: the piece before the first separator, then the split of the rest. */
  lemma SplitStep(s: string, sep: char)
    requires sep in s
    ensures var i := IndexOf(s, sep);
            0 <= i && Split(s, sep) == [s[..i]] + Split(s[i + 1..], sep) && s == s[..i] + [sep] + s[i + 1..]
  {
    var i := IndexOf(s, sep);
    CutAt(s, i);
  }

  lemma CutAt<T>(s: seq<T>, i: nat)
    requires i < |s|
    ensures s == s[..i] + [s[i]] + s[i + 1..]
  {
    assert s[..i] + [s[i]] + s[i + 1..] == s[..i] + s[i..];
  }

  lemma {:induction false} SplitJoin(s: string, sep: char)
    ensures Join(Split(s, sep), sep) == s
    decreases |s|
  {
    if sep !in s {
      assert Split(s, sep) == [s];
    } else {
      SplitStep(s, sep);
      var i := IndexOf(s, sep);
      var head, tail := s[..i], s[i + 1..];
      SplitJoin(tail, sep);
      JoinCons(head, Split(tail, sep), sep);
    }
  }

  /** Joining pieces that contain no separator and splitting again gives the pieces back. */
  lemma {:induction false} JoinSplit(pieces: seq<string>, sep: char)
    requires |pieces| >= 1
    requires forall k :: 0 <= k < |pieces| ==> sep !in pieces[k]
    ensures Split(Join(pieces, sep), sep) == pieces
    decreases |pieces|
  {
    if |pieces| == 1 {
      assert IndexOf(pieces[0], sep) == -1;
    } else {
      var rest := pieces[1..];
      JoinSplit(rest, sep);
      assert [pieces[0]] + rest == pieces;
      JoinCons(pieces[0], rest, sep);
      SplitAt(pieces[0], Join(rest, sep), sep);
    }
  }

  /** Splitting `a + sep + b` where `a` has no separator cuts right after `a`. */
  lemma SplitAt(a: string, b: string, sep: char)
    requires sep !in a
    ensures Split(a + [sep] + b, sep) == [a] + Split(b, sep)
  {
    var s := a + [sep] + b;
    assert s[|a|] == sep && s[..|a|] == a;
    assert IndexOf(s, sep) == |a|;
    assert s[|a| + 1..] == b;
  }

  /** A string without the separator is a single piece. */
  lemma SplitWhole(s: string, sep: char)
    requires sep !in s
    ensures Split(s, sep) == [s]
  {
  }

  /** Every character of `s` is in `allowed`. */
  predicate CharsIn(s: string, allowed: set<char>) {
    forall i :: 0 <= i < |s| ==> s[i] in allowed
  }

  /** No piece holds the separator, and every piece is made of characters in `allowed`. */
  predicate PiecesWithin(pieces: seq<string>, sep: char, allowed: set<char>) {
    forall k :: 0 <= k < |pieces| ==> sep !in pieces[k] && CharsIn(pieces[k], allowed)
  }

  /** Every piece is made of characters of the string, and none of them is the separator. */
  lemma {:induction false} SplitPiecesChars(s: string, sep: char, allowed: set<char>)
    requires CharsIn(s, allowed)
    ensures PiecesWithin(Split(s, sep), sep, allowed)
    decreases |s|
  {
    var x := IndexOf(s, sep);
    if x >= 0 {
      var rest := s[x + 1..];
      CutChars(s, x, allowed);
      BeforeFirst(s, sep);
      SplitPiecesChars(rest, sep, allowed);
      assert Split(s, sep) == [s[..x]] + Split(rest, sep);
      PiecesCons(s[..x], Split(rest, sep), sep, allowed);
    }
  }

  /** The text before the first separator holds none. */
  lemma BeforeFirst(s: string, sep: char)
    requires IndexOf(s, sep) >= 0
    ensures sep !in s[..IndexOf(s, sep)]
  {
    var x := IndexOf(s, sep);
    forall i | 0 <= i < x
      ensures s[..x][i] != sep
    {
      assert s[..x][i] == s[i];
    }
  }

  lemma PiecesCons(first: string, rest: seq<string>, sep: char, allowed: set<char>)
    requires sep !in first && CharsIn(first, allowed) && PiecesWithin(rest, sep, allowed)
    ensures PiecesWithin([first] + rest, sep, allowed)
  {
    var pieces := [first] + rest;
    forall k | 0 <= k < |pieces|
      ensures sep !in pieces[k] && CharsIn(pieces[k], allowed)
    {
      if k > 0 {
        assert pieces[k] == rest[k - 1];
      }
    }
  }

  /** The parts on either side of position `x` keep the characters of the whole. */
  lemma CutChars(s: string, x: nat, allowed: set<char>)
    requires x < |s| && CharsIn(s, allowed)
    ensures CharsIn(s[..x], allowed) && CharsIn(s[x + 1..], allowed)
  {
    var before, after := s[..x], s[x + 1..];
    forall i | 0 <= i < |before|
      ensures before[i] in allowed
    {
      assert before[i] == s[i];
    }
    forall i | 0 <= i < |after|
      ensures after[i] in allowed
    {
      assert after[i] == s[x + 1 + i];
    }
  }

  // ---------------------------------------------------------------------
  // Filtering by a character class: s.replace(/[^...]/g, '')

  /** The class `[0-9.-]` that money amounts are filtered down to. */
  const MONEY_CHARS: set<char> := {'0', '1', '2', '3', '4', '5', '6', '7', '8', '9', '.', '-'}

  /** The string with every character outside `allowed` removed, order kept. */
  function KeepOnly(s: string, allowed: set<char>): (r: string)
    ensures |r| <= |s|
    ensures forall i :: 0 <= i < |r| ==> r[i] in allowed
    decreases |s|
  {
    if s == "" then "" else (if s[0] in allowed then [s[0]] else "") + KeepOnly(s[1..], allowed)
  }

  lemma {:induction false} KeepOnlyAppend(a: string, b: string, allowed: set<char>)
    ensures KeepOnly(a + b, allowed) == KeepOnly(a, allowed) + KeepOnly(b, allowed)
    decreases |a|
  {
    if a != "" {
      var ab := a + b;
      assert ab[0] == a[0] && ab[1..] == a[1..] + b;
      KeepOnlyAppend(a[1..], b, allowed);
      var head := if a[0] in allowed then [a[0]] else "";
      assert KeepOnly(ab, allowed) == head + KeepOnly(a[1..] + b, allowed);
      assert KeepOnly(a, allowed) == head + KeepOnly(a[1..], allowed);
      AppendAssoc(head, KeepOnly(a[1..], allowed), KeepOnly(b, allowed));
    } else {
      assert a + b == b;
    }
  }

  /** Every allowed character survives, as often as it occurs; nothing else does. */
  lemma {:induction false} KeepOnlyCounts(s: string, allowed: set<char>)
    ensures forall c :: c in allowed ==> multiset(KeepOnly(s, allowed))[c] == multiset(s)[c]
    ensures forall c :: c !in allowed ==> multiset(KeepOnly(s, allowed))[c] == 0
    decreases |s|
  {
    if s != "" {
      KeepOnlyCounts(s[1..], allowed);
      assert s == [s[0]] + s[1..];
      assert multiset(s) == multiset{s[0]} + multiset(s[1..]);
    }
  }

  /** A string already inside the class is left as it is, so the filter is idempotent. */
  lemma {:induction false} KeepOnlyIdentity(s: string, allowed: set<char>)
    requires forall i :: 0 <= i < |s| ==> s[i] in allowed
    ensures KeepOnly(s, allowed) == s
    decreases |s|
  {
    if s != "" {
      KeepOnlyIdentity(s[1..], allowed);
    }
  }

  // ---------------------------------------------------------------------
  // trim

  /** The characters String.prototype.trim removes (white space and line terminators). */
  const SPACES: set<char> := {
    ' ', '\t', '\n', '\r', '\U{000B}', '\U{000C}', '\U{00A0}', '\U{1680}',
    '\U{2000}', '\U{2001}', '\U{2002}', '\U{2003}', '\U{2004}', '\U{2005}',
    '\U{2006}', '\U{2007}', '\U{2008}', '\U{2009}', '\U{200A}', '\U{2028}',
    '\U{2029}', '\U{202F}', '\U{205F}', '\U{3000}', '\U{FEFF}'
  }

  function TrimStart(s: string): (r: string)
    ensures r == "" || r[0] !in SPACES
    ensures |r| <= |s| && r == s[|s| - |r|..]
    decreases |s|
  {
    if s != "" && s[0] in SPACES then TrimStart(s[1..]) else s
  }

  function TrimEnd(s: string): (r: string)
    ensures r == "" || r[|r| - 1] !in SPACES
    ensures |r| <= |s| && r == s[..|r|]
    decreases |s|
  {
    if s != "" && s[|s| - 1] in SPACES then TrimEnd(s[..|s| - 1]) else s
  }

  /** `s.trim()`. */
  function Trim(s: string): (r: string)
    ensures r == "" || (r[0] !in SPACES && r[|r| - 1] !in SPACES)
  {
    var t := TrimStart(s);
    var r := TrimEnd(t);
    assert r != "" ==> r[0] == t[0];
    r
  }

  /** A string with no white space at either end is its own trim. */
  lemma TrimIdentity(s: string)
    requires s == "" || (s[0] !in SPACES && s[|s| - 1] !in SPACES)
    ensures Trim(s) == s
  {
  }

  /** Leading white space does not survive `trim`. */
  lemma {:induction false} TrimDropsLeadingSpaces(w: string, s: string)
    requires forall i :: 0 <= i < |w| ==> w[i] in SPACES
    ensures TrimStart(w + s) == TrimStart(s) && Trim(w + s) == Trim(s)
    decreases |w|
  {
    if w != "" {
      assert (w + s)[0] == w[0] && (w + s)[1..] == w[1..] + s;
      TrimDropsLeadingSpaces(w[1..], s);
    } else {
      assert w + s == s;
    }
  }

  // ---------------------------------------------------------------------
  // substring and padding

  /** `s.substring(0, Math.min(n, s.length))`. */
  function Take(s: string, n: nat): (r: string)
    ensures |r| == if n < |s| then n else |s|
    ensures r == s[..|r|]
  {
    s[..if n < |s| then n else |s|]
  }

  function Repeat(c: char, n: nat): (r: string)
    ensures |r| == n && forall i :: 0 <= i < n ==> r[i] == c
  {
    if n == 0 then "" else [c] + Repeat(c, n - 1)
  }

  /** `s.padStart(width, fill)`. */
  function PadStart(s: string, width: nat, fill: char): (r: string)
    ensures |r| == if |s| < width then width else |s|
  {
    if |s| < width then Repeat(fill, width - |s|) + s else s
  }

  /** `s.padEnd(width, fill)`. */
  function PadEnd(s: string, width: nat, fill: char): (r: string)
    ensures |r| == if |s| < width then width else |s|
  {
    if |s| < width then s + Repeat(fill, width - |s|) else s
  }
}
