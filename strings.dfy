/**
 * The handful of Python `str` operations the servers use: `split` on one
 * character, `strip` with a character set, `endswith`, and the decimal
 * rendering of an `int` inside an f-string.
 */
module Strings {

  // ---------------------------------------------------------------------
  // str.split(sep) for a one-character separator
  // ---------------------------------------------------------------------

  /**
   * Python's `s.split(sep)`: the pieces between separators, always at least
   * one (`"".split(sep) == [""]`), none of them containing `sep`.
   */
  function Split(s: string, sep: char): (pieces: seq<string>)
    ensures |pieces| >= 1
    ensures forall k :: 0 <= k < |pieces| ==> sep !in pieces[k]
    ensures sep in s <==> |pieces| > 1
    decreases |s|
  {
    if s == [] then [[]]
    else
      var rest := Split(s[1..], sep);
      if s[0] == sep then [[]] + rest
      else [[s[0]] + rest[0]] + rest[1..]
  }

  /** Python's `sep.join(pieces)`. */
  function Join(pieces: seq<string>, sep: char): string
  {
    if |pieces| == 0 then []
    else if |pieces| == 1 then pieces[0]
    else pieces[0] + [sep] + Join(pieces[1..], sep)
  }

  /** Joining the pieces of a split gives back the original string. */
  lemma {:induction false} JoinSplit(s: string, sep: char)
    ensures Join(Split(s, sep), sep) == s
    decreases |s|
  {
    if s != [] {
      var rest := Split(s[1..], sep);
      JoinSplit(s[1..], sep);
      if s[0] == sep {
        assert Split(s, sep) == [[]] + rest;
        assert ([[]] + rest)[1..] == rest;
        assert [sep] + s[1..] == s;
      } else {
        var pieces := [[s[0]] + rest[0]] + rest[1..];
        assert Split(s, sep) == pieces;
        if |rest| == 1 {
          assert [s[0]] + s[1..] == s;
        } else {
          assert pieces[1..] == rest[1..];
          assert Join(rest, sep) == rest[0] + [sep] + Join(rest[1..], sep);
          assert [s[0]] + s[1..] == s;
        }
      }
    }
  }

  /** A string without the separator splits into itself. */
  lemma {:induction false} SplitWithoutSeparator(a: string, sep: char)
    requires sep !in a
    ensures Split(a, sep) == [a]
  {
    // |Split(a, sep)| == 1 by Split's contract, and the piece joins back to a
    JoinSplit(a, sep);
  }

  /** A separator ends the first piece: `(a + sep + b).split(sep) == [a] + b.split(sep)`. */
  lemma {:induction false} SplitAfterFirstSeparator(a: string, sep: char, b: string)
    requires sep !in a
    ensures Split(a + [sep] + b, sep) == [a] + Split(b, sep)
    decreases |a|
  {
    var s := a + [sep] + b;
    if a == [] {
      assert s == [sep] + b;
      assert s[1..] == b;
    } else {
      assert s[0] == a[0];
      assert s[1..] == a[1..] + [sep] + b;
      SplitAfterFirstSeparator(a[1..], sep, b);
      assert [a[0]] + a[1..] == a;
    }
  }

  /** Splitting a join of separator-free pieces gives back the pieces. */
  lemma {:induction false} SplitJoin(pieces: seq<string>, sep: char)
    requires |pieces| >= 1
    requires forall k :: 0 <= k < |pieces| ==> sep !in pieces[k]
    ensures Split(Join(pieces, sep), sep) == pieces
    decreases |pieces|
  {
    if |pieces| == 1 {
      SplitWithoutSeparator(pieces[0], sep);
    } else {
      SplitJoin(pieces[1..], sep);
      SplitAfterFirstSeparator(pieces[0], sep, Join(pieces[1..], sep));
      assert [pieces[0]] + pieces[1..] == pieces;
    }
  }

  // ---------------------------------------------------------------------
  // str.strip(chars)
  // ---------------------------------------------------------------------

  /** Neither end of `s` is one of `chars`: nothing left for `strip` to remove. */
  predicate IsStripped(s: string, chars: set<char>)
  {
    s == [] || (s[0] !in chars && s[|s| - 1] !in chars)
  }

  /** Python's `s.lstrip(chars)`: drops the longest prefix made of `chars`. */
  function TrimStart(s: string, chars: set<char>): (r: string)
    ensures |r| <= |s| && r == s[|s| - |r|..]
    ensures forall k :: 0 <= k < |s| - |r| ==> s[k] in chars
    ensures r == [] || r[0] !in chars
    decreases |s|
  {
    if s != [] && s[0] in chars then TrimStart(s[1..], chars) else s
  }

  /** Python's `s.rstrip(chars)`: drops the longest suffix made of `chars`. */
  function TrimEnd(s: string, chars: set<char>): (r: string)
    ensures |r| <= |s| && r == s[..|r|]
    ensures forall k :: |r| <= k < |s| ==> s[k] in chars
    ensures r == [] || r[|r| - 1] !in chars
    decreases |s|
  {
    if s != [] && s[|s| - 1] in chars then TrimEnd(s[..|s| - 1], chars) else s
  }

  /** How many leading characters `strip` removes from `s`. */
  function StripOffset(s: string, chars: set<char>): nat
  {
    |s| - |TrimStart(s, chars)|
  }

  /**
   * `r` sits in `s` at offset `i`, with only characters of `chars` before
   * and after it.
   */
  predicate IsInfixBetween(s: string, i: nat, r: string, chars: set<char>)
  {
    i + |r| <= |s| && s[i..i + |r|] == r &&
    (forall k :: 0 <= k < i ==> s[k] in chars) &&
    (forall k :: i + |r| <= k < |s| ==> s[k] in chars)
  }

  /**
   * Python's `s.strip(chars)`: the infix of `s` left once every leading and
   * trailing character in `chars` is removed.
   */
  function Strip(s: string, chars: set<char>): (r: string)
    ensures IsStripped(r, chars)
    ensures IsInfixBetween(s, StripOffset(s, chars), r, chars)
  {
    var t := TrimStart(s, chars);
    var r := TrimEnd(t, chars);
    PrefixOfSuffix(s, t, r, chars);
    r
  }

  /**
   * A prefix `r` of a suffix `t` of `s`, with only `chars` before `t` and
   * after `r`, and with neither end in `chars`, is what `strip` leaves.
   */
  lemma PrefixOfSuffix(s: string, t: string, r: string, chars: set<char>)
    requires |t| <= |s| && t == s[|s| - |t|..]
    requires forall k :: 0 <= k < |s| - |t| ==> s[k] in chars
    requires t == [] || t[0] !in chars
    requires |r| <= |t| && r == t[..|r|]
    requires forall k :: |r| <= k < |t| ==> t[k] in chars
    requires r == [] || r[|r| - 1] !in chars
    ensures IsStripped(r, chars)
    ensures IsInfixBetween(s, |s| - |t|, r, chars)
  {
    var i := |s| - |t|;
    assert r != [] ==> r[0] == t[0];
    assert s[i..i + |r|] == t[..|r|];
    forall k | i + |r| <= k < |s|
      ensures s[k] in chars
    {
      assert s[k] == t[k - i];
    }
  }

  /** What `strip` leaves is unique: the middle of any decoration-free split. */
  lemma StripCharacterised(a: string, m: string, b: string, chars: set<char>)
    requires forall k :: 0 <= k < |a| ==> a[k] in chars
    requires forall k :: 0 <= k < |b| ==> b[k] in chars
    requires IsStripped(m, chars)
    ensures Strip(a + m + b, chars) == m
  {
    var s := a + m + b;
    var r := Strip(s, chars);
    var i := StripOffset(s, chars);
    assert IsInfixBetween(s, i, r, chars) && IsStripped(r, chars);
    assert forall k :: 0 <= k < |a| ==> s[k] in chars;
    assert forall k :: |a| + |m| <= k < |s| ==> s[k] in chars;
    if m == [] {
      if r != [] {
        // r's first character lies in a or b, both made of chars
        assert false;
      }
    } else {
      assert s[|a|] == m[0] && s[|a| + |m| - 1] == m[|m| - 1];
      if r == [] {
        assert false;
      }
      assert s[i] == r[0] && s[i + |r| - 1] == r[|r| - 1];
      assert i == |a|;
      assert i + |r| == |a| + |m|;
      assert s[|a|..|a| + |m|] == m;
    }
  }

  // ---------------------------------------------------------------------
  // str.endswith(suffix)
  // ---------------------------------------------------------------------

  /** Python's `s.endswith(suffix)`: `s` is something followed by `suffix`. */
  predicate EndsWith(s: string, suffix: string): (b: bool)
    ensures b <==> exists p :: s == p + suffix
  {
    assert |suffix| <= |s| ==> s == s[..|s| - |suffix|] + s[|s| - |suffix|..];
    |suffix| <= |s| && s[|s| - |suffix|..] == suffix
  }

  // ---------------------------------------------------------------------
  // Decimal rendering of an int, as in f"{n}"
  // ---------------------------------------------------------------------

  predicate IsDigit(c: char) { '0' as int <= c as int <= '9' as int }

  /** The digits of `n` in base ten, with no leading zero. */
  function NatToDecimal(n: nat): (r: string)
    ensures |r| >= 1
    ensures forall k :: 0 <= k < |r| ==> IsDigit(r[k])
    ensures |r| > 1 ==> r[0] != '0'
  {
    if n < 10 then [('0' as int + n) as char]
    else NatToDecimal(n / 10) + [('0' as int + n % 10) as char]
  }

  /** At least one digit, all digits, and no leading zero unless the number is zero. */
  predicate IsCanonicalDigits(d: string)
  {
    |d| >= 1 && (forall k :: 0 <= k < |d| ==> IsDigit(d[k])) && (|d| > 1 ==> d[0] != '0')
  }

  /** Python's `str(n)` for an int: a minus sign before the digits of `|n|`. */
  function IntToDecimal(n: int): (r: string)
    ensures |r| >= 1
    ensures r[0] == '-' <==> n < 0
    ensures IsCanonicalDigits(if n < 0 then r[1..] else r)
  {
    if n < 0 then
      var r := "-" + NatToDecimal(-n);
      assert r[1..] == NatToDecimal(-n);
      r
    else NatToDecimal(n)
  }

  /** The value of a string of decimal digits. */
  function DecimalValue(s: string): nat
    requires forall k :: 0 <= k < |s| ==> IsDigit(s[k])
  {
    if s == [] then 0
    else
      assert IsDigit(s[|s| - 1]);
      DecimalValue(s[..|s| - 1]) * 10 + (s[|s| - 1] as int - '0' as int) as nat
  }

  /** The value of an optionally signed decimal literal, as Python's `int(s)` reads it. */
  function IntValue(s: string): int
    requires |s| >= 1
    requires s[0] == '-' ==> |s| >= 2 && forall k :: 1 <= k < |s| ==> IsDigit(s[k])
    requires s[0] != '-' ==> forall k :: 0 <= k < |s| ==> IsDigit(s[k])
  {
    if s[0] == '-' then -(DecimalValue(s[1..]) as int) else DecimalValue(s)
  }

  /** Reading back the digits of `n` gives `n`. */
  lemma {:induction false} NatToDecimalRoundTrip(n: nat)
    ensures DecimalValue(NatToDecimal(n)) == n
  {
    if n >= 10 {
      NatToDecimalRoundTrip(n / 10);
      var r := NatToDecimal(n);
      assert r[..|r| - 1] == NatToDecimal(n / 10);
    }
  }

  /** Reading back `str(n)` gives `n`, for every int. */
  lemma IntToDecimalRoundTrip(n: int)
    ensures var r := IntToDecimal(n);
            (r[0] == '-' ==> |r| >= 2 && forall k :: 1 <= k < |r| ==> IsDigit(r[k])) &&
            (r[0] != '-' ==> forall k :: 0 <= k < |r| ==> IsDigit(r[k])) &&
            IntValue(r) == n
  {
    var r := IntToDecimal(n);
    if n < 0 {
      NatToDecimalRoundTrip(-n);
      assert r[1..] == NatToDecimal(-n);
    } else {
      NatToDecimalRoundTrip(n);
    }
  }
}
