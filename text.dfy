/**
 * Character-level helpers shared by the file codec and the queries:
 * decimal digits (String.valueOf on a non-negative int, zero-padded
 * fields), ASCII case folding (String.equalsIgnoreCase) and
 * String.split(",") with Java's rule of dropping trailing empty strings.
 */
module Text {

  const Comma: char := ','

  // ---------------------------------------------------------------------
  // Decimal digits

  predicate IsDigit(c: char) { '0' <= c <= '9' }

  predicate AllDigits(s: string) { forall i :: 0 <= i < |s| ==> IsDigit(s[i]) }

  function DigitChar(d: nat): (c: char)
    requires d < 10
    ensures IsDigit(c)
  {
    ('0' as int + d) as char
  }

  function DigitValue(c: char): (d: nat)
    requires IsDigit(c)
    ensures d < 10
  {
    c as int - '0' as int
  }

  function Pow10(n: nat): (p: nat)
    ensures p >= 1
  {
    if n == 0 then 1 else 10 * Pow10(n - 1)
  }

  /** The value of a string of decimal digits, most significant first. */
  function DigitsValue(s: string): nat
    requires AllDigits(s)
  {
    if s == [] then 0 else DigitsValue(s[..|s| - 1]) * 10 + DigitValue(s[|s| - 1])
  }

  /** Shortest decimal numeral of n: what String.valueOf gives for a non-negative int. */
  function NatToString(n: nat): (s: string)
    ensures |s| >= 1 && AllDigits(s)
  {
    if n < 10 then [DigitChar(n)] else NatToString(n / 10) + [DigitChar(n % 10)]
  }

  /** The last `width` decimal digits of n, zero-padded on the left. */
  function PadDigits(n: nat, width: nat): (s: string)
    ensures |s| == width && AllDigits(s)
  {
    if width == 0 then [] else PadDigits(n / 10, width - 1) + [DigitChar(n % 10)]
  }

  lemma DigitRoundTrip(d: nat)
    requires d < 10
    ensures DigitValue(DigitChar(d)) == d
  {
  }

  /** Reading back a numeral written by NatToString gives the same number. */
  lemma {:induction false} NatToStringRoundTrip(n: nat)
    ensures DigitsValue(NatToString(n)) == n
  {
    var s := NatToString(n);
    if n < 10 {
      DigitRoundTrip(n);
    } else {
      NatToStringRoundTrip(n / 10);
      DigitRoundTrip(n % 10);
      assert s[..|s| - 1] == NatToString(n / 10);
    }
  }

  /** NatToString writes no leading zero: its numerals are canonical. */
  lemma {:induction false} NatToStringCanonical(n: nat)
    ensures NatToString(n)[0] == '0' <==> n == 0
  {
    if n >= 10 {
      NatToStringCanonical(n / 10);
    }
  }

  /** Distinct numbers get distinct numerals. */
  lemma NatToStringInjective(a: nat, b: nat)
    requires NatToString(a) == NatToString(b)
    ensures a == b
  {
    NatToStringRoundTrip(a);
    NatToStringRoundTrip(b);
  }

  /** A zero-padded field reads back as its number when the number fits the width. */
  lemma {:induction false} PadDigitsRoundTrip(n: nat, width: nat)
    requires n < Pow10(width)
    ensures DigitsValue(PadDigits(n, width)) == n
  {
    if width > 0 {
      var s := PadDigits(n, width);
      assert n / 10 < Pow10(width - 1);
      PadDigitsRoundTrip(n / 10, width - 1);
      DigitRoundTrip(n % 10);
      assert s[..|s| - 1] == PadDigits(n / 10, width - 1);
    }
  }

  // ---------------------------------------------------------------------
  // ASCII case folding

  function ToLowerAscii(c: char): char
  {
    if 'A' <= c <= 'Z' then (c as int + 32) as char else c
  }

  function LowerAscii(s: string): (r: string)
    ensures |r| == |s| && forall i :: 0 <= i < |s| ==> r[i] == ToLowerAscii(s[i])
  {
    seq(|s|, i requires 0 <= i < |s| => ToLowerAscii(s[i]))
  }

  /** String.equalsIgnoreCase restricted to ASCII letters: same length, equal after folding each character. */
  predicate EqualsIgnoreCase(a: string, b: string)
    ensures a == b ==> EqualsIgnoreCase(a, b)
    ensures EqualsIgnoreCase(a, b) ==> |a| == |b|
  {
    |a| == |b| && forall i :: 0 <= i < |a| ==> ToLowerAscii(a[i]) == ToLowerAscii(b[i])
  }

  /** Comparing ignoring case is comparing the lower-cased strings. */
  lemma EqualsIgnoreCaseIsLowerEquality(a: string, b: string)
    ensures EqualsIgnoreCase(a, b) <==> LowerAscii(a) == LowerAscii(b)
  {
    if LowerAscii(a) == LowerAscii(b) {
      forall i | 0 <= i < |a| ensures ToLowerAscii(a[i]) == ToLowerAscii(b[i]) {
        assert LowerAscii(a)[i] == LowerAscii(b)[i];
      }
    }
  }

  /** Comparing ignoring case is an equivalence relation. */
  lemma EqualsIgnoreCaseEquivalence(a: string, b: string, c: string)
    ensures EqualsIgnoreCase(a, a)
    ensures EqualsIgnoreCase(a, b) ==> EqualsIgnoreCase(b, a)
    ensures EqualsIgnoreCase(a, b) && EqualsIgnoreCase(b, c) ==> EqualsIgnoreCase(a, c)
  {
  }

  // ---------------------------------------------------------------------
  // Splitting on commas

  function CommaCount(s: string): nat
  {
    if s == [] then 0 else (if s[0] == Comma then 1 else 0) + CommaCount(s[1..])
  }

  /** Every piece between commas, empty pieces included: n commas give n + 1 pieces. */
  function SplitAll(s: string): (parts: seq<string>)
    ensures |parts| >= 1
  {
    if s == [] then [[]]
    else
      var rest := SplitAll(s[1..]);
      if s[0] == Comma then [[]] + rest else [[s[0]] + rest[0]] + rest[1..]
  }

  function DropTrailingEmpty(parts: seq<string>): (r: seq<string>)
    ensures |r| <= |parts| && r == parts[..|r|]
  {
    if parts != [] && parts[|parts| - 1] == [] then DropTrailingEmpty(parts[..|parts| - 1]) else parts
  }

  /**
   * String.split(","): a string without a comma comes back whole (the
   * empty string included); otherwise the pieces between commas, with
   * trailing empty pieces removed.
   */
  function Split(s: string): (r: seq<string>)
    ensures forall i :: 0 <= i < |r| ==> Comma !in r[i]
    ensures |r| <= CommaCount(s) + 1
  {
    if Comma !in s then [s]
    else
      JoinSplitAll(s);
      SplitAllCount(s);
      var r := DropTrailingEmpty(SplitAll(s));
      assert forall i :: 0 <= i < |r| ==> r[i] == SplitAll(s)[i];
      r
  }

  /** DropTrailingEmpty removes only empty pieces, every one of them at the end. */
  lemma {:induction false} DropTrailingEmptyRule(parts: seq<string>)
    ensures var r := DropTrailingEmpty(parts);
      && (forall i :: |r| <= i < |parts| ==> parts[i] == [])
      && (r != [] ==> r[|r| - 1] != [])
  {
    if parts != [] && parts[|parts| - 1] == [] {
      var front := parts[..|parts| - 1];
      DropTrailingEmptyRule(front);
      var r := DropTrailingEmpty(parts);
      forall i | |r| <= i < |parts| ensures parts[i] == [] {
        if i < |front| { assert parts[i] == front[i]; }
      }
    }
  }

  /**
   * The rule of String.split(","): a string without a comma is one piece;
   * otherwise the result is the pieces between commas up to the last
   * non-empty one, so only trailing empty pieces are dropped.
   */
  lemma SplitRule(s: string)
    ensures Comma !in s ==> Split(s) == [s]
    ensures Comma in s ==> var r, all := Split(s), SplitAll(s);
      && r == all[..|r|]
      && (forall i :: |r| <= i < |all| ==> all[i] == [])
      && (r != [] ==> r[|r| - 1] != [])
  {
    if Comma in s {
      DropTrailingEmptyRule(SplitAll(s));
    }
  }

  /** The inverse of SplitAll: the pieces joined with commas. */
  function Join(parts: seq<string>): string
    requires |parts| >= 1
  {
    if |parts| == 1 then parts[0] else parts[0] + [Comma] + Join(parts[1..])
  }

  /** Joining one more piece appends a comma and the piece. */
  lemma {:induction false} JoinSnoc(parts: seq<string>, x: string)
    requires |parts| >= 1
    ensures Join(parts + [x]) == Join(parts) + [Comma] + x
  {
    var p := parts + [x];
    assert p[0] == parts[0];
    if |parts| == 1 {
      assert p[1..] == [x];
    } else {
      assert p[1..] == parts[1..] + [x];
      JoinSnoc(parts[1..], x);
      AppendAssoc(parts[0] + [Comma], Join(parts[1..]) + [Comma], x);
      AppendAssoc(parts[0] + [Comma], Join(parts[1..]), [Comma]);
    }
  }

  /** SplitAll and Join are inverse: joining the pieces gives the string back, and no piece holds a comma. */
  lemma {:induction false} JoinSplitAll(s: string)
    ensures Join(SplitAll(s)) == s
    ensures forall i :: 0 <= i < |SplitAll(s)| ==> Comma !in SplitAll(s)[i]
  {
    if s != [] {
      JoinSplitAll(s[1..]);
      assert s == [s[0]] + s[1..];
      SplitAllCons(s[0], s[1..]);
      var rest := SplitAll(s[1..]);
      var parts := SplitAll(s);
      if s[0] == Comma {
        assert parts[1..] == rest;
      } else {
        assert parts[1..] == rest[1..];
        if |rest| > 1 {
          AppendAssoc([s[0]], rest[0] + [Comma], Join(rest[1..]));
          AppendAssoc([s[0]], rest[0], [Comma]);
        }
        forall i | 0 <= i < |parts| ensures Comma !in parts[i] {
          if i > 0 { assert parts[i] == rest[i]; }
        }
      }
    }
  }

  /** A string without commas is a single piece. */
  lemma {:induction false} SplitAllNoComma(s: string)
    requires Comma !in s
    ensures SplitAll(s) == [s]
  {
    if s != [] {
      assert s == [s[0]] + s[1..];
      SplitAllNoComma(s[1..]);
    }
  }

  lemma AppendAssoc<T>(x: seq<T>, y: seq<T>, z: seq<T>)
    ensures x + (y + z) == (x + y) + z
  {
  }

  /** One character in front: a comma opens a new piece, any other character extends the first piece. */
  lemma SplitAllCons(c: char, s: string)
    ensures SplitAll([c] + s) == if c == Comma then [[]] + SplitAll(s)
                                 else [[c] + SplitAll(s)[0]] + SplitAll(s)[1..]
  {
    assert ([c] + s)[0] == c && ([c] + s)[1..] == s;
  }

  /** Splitting at a comma concatenates the pieces of both sides. */
  lemma {:induction false} SplitAllAtComma(a: string, b: string)
    ensures SplitAll(a + [Comma] + b) == SplitAll(a) + SplitAll(b)
  {
    if a == [] {
      assert a + [Comma] + b == [Comma] + b;
      SplitAllCons(Comma, b);
    } else {
      var ra, rb := SplitAll(a[1..]), SplitAll(b);
      SplitAllAtComma(a[1..], b);
      assert a + [Comma] + b == [a[0]] + (a[1..] + [Comma] + b);
      assert a == [a[0]] + a[1..];
      SplitAllCons(a[0], a[1..] + [Comma] + b);
      SplitAllCons(a[0], a[1..]);
      if a[0] == Comma {
        AppendAssoc([[]], ra, rb);
      } else {
        var h := [a[0]] + ra[0];
        assert (ra + rb)[0] == ra[0];
        assert (ra + rb)[1..] == ra[1..] + rb;
        AppendAssoc([h], ra[1..], rb);
      }
    }
  }

  /** Joining comma-free pieces and splitting again gives the pieces back. */
  lemma {:induction false} SplitAllJoin(parts: seq<string>)
    requires |parts| >= 1
    requires forall i :: 0 <= i < |parts| ==> Comma !in parts[i]
    ensures SplitAll(Join(parts)) == parts
  {
    SplitAllNoComma(parts[0]);
    if |parts| > 1 {
      SplitAllJoin(parts[1..]);
      SplitAllAtComma(parts[0], Join(parts[1..]));
    }
  }

  /** The number of pieces is one more than the number of commas. */
  lemma {:induction false} SplitAllCount(s: string)
    ensures |SplitAll(s)| == CommaCount(s) + 1
  {
    if s != [] {
      SplitAllCount(s[1..]);
    }
  }

  lemma {:induction false} CommaCountAppend(a: string, b: string)
    ensures CommaCount(a + b) == CommaCount(a) + CommaCount(b)
  {
    if a == [] {
      assert a + b == b;
    } else {
      CommaCountAppend(a[1..], b);
      assert (a + b)[1..] == a[1..] + b;
    }
  }

  lemma {:induction false} CommaCountZero(s: string)
    ensures CommaCount(s) == 0 <==> Comma !in s
  {
    if s != [] {
      CommaCountZero(s[1..]);
      assert s == [s[0]] + s[1..];
    }
  }

  /** When the string does not end in a comma, its last piece is not empty. */
  lemma {:induction false} SplitAllLastNonEmpty(s: string)
    requires s != [] && s[|s| - 1] != Comma
    ensures SplitAll(s)[|SplitAll(s)| - 1] != []
  {
    if |s| > 1 {
      SplitAllLastNonEmpty(s[1..]);
    } else {
      assert s[1..] == [];
    }
  }

  /**
   * When the string holds a comma and does not end in one, Java's split
   * drops nothing: it gives every piece.
   */
  lemma SplitKeepsAllPieces(s: string)
    requires s != [] && s[|s| - 1] != Comma
    ensures Split(s) == SplitAll(s)
  {
    SplitAllLastNonEmpty(s);
    if Comma !in s {
      SplitAllNoComma(s);
    }
  }
}
