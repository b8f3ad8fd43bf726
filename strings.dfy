/**
 * The few Python string operations the scene metadata passes through:
 * `sub in s`, `s.split(sep)`, `s.replace(c, '')`, `l[::-1]`, clamped slicing
 * `s[lo:hi]` and the conversion of a digit string to an integer.
 */
module Strings {
  import opened Wrappers

  /** Python's `sub in s`: `sub` occurs somewhere in `s`. */
  predicate Contains(s: string, sub: string)
    decreases |s|
  {
    |sub| <= |s| && (s[..|sub|] == sub || Contains(s[1..], sub))
  }

  /** `sub` occurs in `s` starting at position `i`. */
  ghost predicate OccursAt(s: string, sub: string, i: int)
  {
    0 <= i && i + |sub| <= |s| && s[i..i + |sub|] == sub
  }

  /** The recursive `Contains` is exactly "there is a position where `sub` occurs". */
  lemma {:induction false} ContainsIffOccurs(s: string, sub: string)
    ensures Contains(s, sub) <==> exists i :: OccursAt(s, sub, i)
    decreases |s|
  {
    if |sub| <= |s| {
      if s[..|sub|] == sub {
        assert OccursAt(s, sub, 0);
      } else {
        ContainsIffOccurs(s[1..], sub);
        if Contains(s[1..], sub) {
          var i :| OccursAt(s[1..], sub, i);
          assert s[1..][i..i + |sub|] == s[i + 1..i + 1 + |sub|];
          assert OccursAt(s, sub, i + 1);
        } else {
          assert !OccursAt(s, sub, 0) by {
            assert s[..|sub|] == s[0..|sub|];
          }
          forall i | 1 <= i && OccursAt(s, sub, i)
            ensures OccursAt(s[1..], sub, i - 1)
          {
            assert s[1..][i - 1..i - 1 + |sub|] == s[i..i + |sub|];
          }
        }
      }
    }
  }

  /** Python's `s.split(sep)` for a non-empty separator: the pieces between the
      occurrences of `sep`, found left to right without overlap. */
  function Split(s: string, sep: string): (parts: seq<string>)
    requires |sep| > 0
    ensures |parts| >= 1
    decreases |s|
  {
    if |s| < |sep| then [s]
    else if s[..|sep|] == sep then [""] + Split(s[|sep|..], sep)
    else
      var rest := Split(s[1..], sep);
      [[s[0]] + rest[0]] + rest[1..]
  }

  /** Python's `sep.join(parts)`, the inverse of `Split`. */
  function Join(parts: seq<string>, sep: string): string
  {
    if |parts| == 0 then ""
    else if |parts| == 1 then parts[0]
    else parts[0] + sep + Join(parts[1..], sep)
  }

  /** Splitting loses nothing: joining the pieces back gives the original text. */
  lemma {:induction false} JoinSplit(s: string, sep: string)
    requires |sep| > 0
    ensures Join(Split(s, sep), sep) == s
    decreases |s|
  {
    if |s| < |sep| {
    } else if s[..|sep|] == sep {
      var tail := s[|sep|..];
      var rest := Split(tail, sep);
      JoinSplit(tail, sep);
      var parts := [""] + rest;
      assert parts[1..] == rest;
      calc {
        Join(parts, sep);
        parts[0] + sep + Join(parts[1..], sep);
        "" + sep + tail;
        { assert s == s[..|sep|] + tail; }
        s;
      }
    } else {
      var tail := s[1..];
      var rest := Split(tail, sep);
      JoinSplit(tail, sep);
      var parts := [[s[0]] + rest[0]] + rest[1..];
      if |rest| == 1 {
        assert Join(parts, sep) == [s[0]] + tail;
      } else {
        assert parts[1..] == rest[1..];
        calc {
          Join(parts, sep);
          ([s[0]] + rest[0]) + sep + Join(rest[1..], sep);
          [s[0]] + (rest[0] + sep + Join(rest[1..], sep));
          [s[0]] + Join(rest, sep);
        }
      }
      assert s == [s[0]] + tail;
    }
  }

  /** The first piece of a split is a prefix of the text. */
  lemma {:induction false} SplitFirstIsPrefix(s: string, sep: string)
    requires |sep| > 0
    ensures |Split(s, sep)[0]| <= |s| && Split(s, sep)[0] == s[..|Split(s, sep)[0]|]
    decreases |s|
  {
    if |s| >= |sep| && s[..|sep|] != sep {
      SplitFirstIsPrefix(s[1..], sep);
    }
  }

  /** No piece of a split contains the separator. */
  lemma {:induction false} SplitPiecesFree(s: string, sep: string)
    requires |sep| > 0
    ensures forall k :: 0 <= k < |Split(s, sep)| ==> !Contains(Split(s, sep)[k], sep)
    decreases |s|
  {
    var parts := Split(s, sep);
    if |s| < |sep| {
    } else if s[..|sep|] == sep {
      var rest := Split(s[|sep|..], sep);
      SplitPiecesFree(s[|sep|..], sep);
      assert parts == [""] + rest;
      forall k | 0 <= k < |parts| ensures !Contains(parts[k], sep) {
        if k > 0 { assert parts[k] == rest[k - 1]; }
      }
    } else {
      var rest := Split(s[1..], sep);
      SplitPiecesFree(s[1..], sep);
      SplitFirstIsPrefix(s[1..], sep);
      var p0 := [s[0]] + rest[0];
      assert p0 == s[..|p0|];
      assert p0[1..] == rest[0];
      if |sep| <= |p0| {
        assert p0[..|sep|] == s[..|sep|];
      }
      assert !Contains(p0, sep);
      forall k | 0 <= k < |parts| ensures !Contains(parts[k], sep) {
        if k > 0 { assert parts[k] == rest[k]; }
      }
    }
  }

  /** Every character of every piece of a split comes from the text. */
  lemma {:induction false} SplitPiecesFromText(s: string, sep: string)
    requires |sep| > 0
    ensures forall k, c :: 0 <= k < |Split(s, sep)| && c in Split(s, sep)[k] ==> c in s
    decreases |s|
  {
    var parts := Split(s, sep);
    if |s| < |sep| {
    } else if s[..|sep|] == sep {
      var rest := Split(s[|sep|..], sep);
      SplitPiecesFromText(s[|sep|..], sep);
      assert parts == [""] + rest;
      forall k, c | 0 <= k < |parts| && c in parts[k] ensures c in s {
        assert parts[k] == rest[k - 1];
        assert c in s[|sep|..];
      }
    } else {
      var rest := Split(s[1..], sep);
      SplitPiecesFromText(s[1..], sep);
      forall k, c | 0 <= k < |parts| && c in parts[k] ensures c in s {
        if k == 0 {
          assert parts[0] == [s[0]] + rest[0];
          if c != s[0] { assert c in rest[0]; assert c in s[1..]; }
        } else {
          assert parts[k] == rest[k];
          assert c in s[1..];
        }
      }
    }
  }

  /** A split yields more than one piece exactly when the separator occurs. */
  lemma {:induction false} SplitCountIffContains(s: string, sep: string)
    requires |sep| > 0
    ensures |Split(s, sep)| >= 2 <==> Contains(s, sep)
    decreases |s|
  {
    if |s| >= |sep| && s[..|sep|] != sep {
      SplitCountIffContains(s[1..], sep);
    }
  }

  /** Joining at least two pieces puts the separator right before the last one. */
  lemma {:induction false} JoinLast(parts: seq<string>, sep: string)
    requires |parts| >= 2
    ensures Join(parts, sep) == Join(parts[..|parts| - 1], sep) + sep + parts[|parts| - 1]
    decreases |parts|
  {
    if |parts| > 2 {
      JoinLast(parts[1..], sep);
      assert parts[1..][..|parts| - 2] == parts[..|parts| - 1][1..];
    }
  }

  /** Python's `s.split(sep)[-1]`. */
  function AfterLast(s: string, sep: string): string
    requires |sep| > 0
  {
    var parts := Split(s, sep);
    parts[|parts| - 1]
  }

  /** `s.split(sep)[-1]` is the text after the LAST occurrence of `sep`: it holds
      no `sep`, and `s` ends with `sep` followed by it; without any occurrence it
      is the whole of `s`. */
  lemma AfterLastIsSuffix(s: string, sep: string)
    requires |sep| > 0
    ensures !Contains(AfterLast(s, sep), sep)
    ensures Contains(s, sep) ==>
              var t := AfterLast(s, sep);
              |t| + |sep| <= |s| && s[|s| - |t| - |sep|..] == sep + t
    ensures !Contains(s, sep) ==> AfterLast(s, sep) == s
  {
    SplitPiecesFree(s, sep);
    SplitCountIffContains(s, sep);
    if Contains(s, sep) {
      AfterLastWhenSplit(s, sep);
    } else {
      JoinSplit(s, sep);
      assert |Split(s, sep)| == 1;
    }
  }

  lemma AfterLastWhenSplit(s: string, sep: string)
    requires |sep| > 0 && |Split(s, sep)| >= 2
    ensures var t := AfterLast(s, sep);
            |t| + |sep| <= |s| && s[|s| - |t| - |sep|..] == sep + t
  {
    var parts := Split(s, sep);
    var t := parts[|parts| - 1];
    var front := Join(parts[..|parts| - 1], sep);
    assert s == front + sep + t by {
      JoinSplit(s, sep);
      JoinLast(parts, sep);
    }
    DropPrefix(front, sep, t);
  }

  lemma DropPrefix(a: string, b: string, c: string)
    ensures (a + b + c)[|a|..] == b + c
  {
  }

  /** Python's `s.replace(c, '')`: every `c` removed, all other characters kept. */
  function DeleteAll(s: string, c: char): (r: string)
    ensures c !in r
    ensures |r| <= |s|
    ensures forall x :: x != c ==> multiset(r)[x] == multiset(s)[x]
  {
    if s == [] then []
    else
      assert s == [s[0]] + s[1..];
      (if s[0] == c then [] else [s[0]]) + DeleteAll(s[1..], c)
  }

  /** Removing a character that does not occur changes nothing. */
  lemma {:induction false} DeleteAbsent(s: string, c: char)
    requires c !in s
    ensures DeleteAll(s, c) == s
  {
    if s != [] {
      assert c !in s[1..];
      DeleteAbsent(s[1..], c);
    }
  }

  /** `replace(c, '')` keeps the order of what it keeps: it works piece by piece, and on a
      single character it drops `c` and keeps anything else. */
  lemma {:induction false} DeleteAllKeepsOrder(a: string, b: string, c: char)
    ensures DeleteAll(a + b, c) == DeleteAll(a, c) + DeleteAll(b, c)
    ensures forall x :: DeleteAll([x], c) == if x == c then [] else [x]
    decreases |a|
  {
    forall x ensures DeleteAll([x], c) == if x == c then [] else [x] {
      assert [x][1..] == [];
    }
    if a == [] {
      assert a + b == b;
    } else {
      var head := if a[0] == c then [] else [a[0]];
      assert (a + b)[1..] == a[1..] + b;
      assert (a + b)[0] == a[0];
      assert DeleteAll(a + b, c) == head + DeleteAll(a[1..] + b, c);
      assert DeleteAll(a, c) == head + DeleteAll(a[1..], c);
      DeleteAllKeepsOrder(a[1..], b, c);
    }
  }

  /** Python's `l[::-1]`. */
  function Reverse<T>(s: seq<T>): (r: seq<T>)
    ensures |r| == |s|
    ensures forall i :: 0 <= i < |s| ==> r[i] == s[|s| - 1 - i]
  {
    if s == [] then [] else Reverse(s[1..]) + [s[0]]
  }

  function Min(a: int, b: int): int { if a <= b then a else b }

  /** Python's `s[lo:hi]` for non-negative bounds: both ends are clamped to the
      length, and a slice whose start passes its end is empty. */
  function Slice(s: string, lo: nat, hi: nat): (r: string)
    ensures lo <= hi <= |s| ==> r == s[lo..hi]
    ensures lo <= |s| <= hi ==> r == s[lo..]
    ensures |s| <= lo || hi <= lo ==> r == []
  {
    var a := Min(lo, |s|);
    var b := Min(hi, |s|);
    if a <= b then s[a..b] else []
  }

  predicate IsDigit(c: char) { '0' <= c <= '9' }

  predicate AllDigits(s: string) { forall i :: 0 <= i < |s| ==> IsDigit(s[i]) }

  function Pow10(n: nat): (p: nat)
    ensures p >= 1
  {
    if n == 0 then 1 else 10 * Pow10(n - 1)
  }

  /** The value of a string of decimal digits, most significant first. */
  function DigitsValue(s: string): (v: nat)
    requires AllDigits(s)
    ensures v < Pow10(|s|)
  {
    if s == [] then 0
    else DigitsValue(s[..|s| - 1]) * 10 + (s[|s| - 1] as int - '0' as int)
  }

  /** Conversion of a digit string to an integer (leading zeros allowed);
      anything else is not a number. */
  function ParseDecimal(s: string): (r: Option<nat>)
    ensures r.Some? <==> |s| > 0 && AllDigits(s)
    ensures r.Some? ==> r.value < Pow10(|s|)
  {
    if |s| > 0 && AllDigits(s) then Some(DigitsValue(s)) else None
  }

  function DigitChar(d: nat): (c: char)
    requires d < 10
    ensures IsDigit(c)
  {
    ('0' as int + d) as char
  }

  /** `n` written with exactly `w` digits, zero-padded on the left (the last `w` digits of `n`). */
  function Padded(n: nat, w: nat): (r: string)
    ensures |r| == w && AllDigits(r)
  {
    if w == 0 then [] else Padded(n / 10, w - 1) + [DigitChar(n % 10)]
  }

  /** Reading back a zero-padded number gives the number. */
  lemma {:induction false} ParsePadded(n: nat, w: nat)
    requires 0 < w && n < Pow10(w)
    ensures ParseDecimal(Padded(n, w)) == Some(n)
  {
    DigitsPadded(n, w);
  }

  lemma {:induction false} DigitsPadded(n: nat, w: nat)
    requires n < Pow10(w)
    ensures DigitsValue(Padded(n, w)) == n
  {
    if w > 0 {
      var p := Padded(n, w);
      assert p[..|p| - 1] == Padded(n / 10, w - 1);
      DigitsPadded(n / 10, w - 1);
    }
  }
}
