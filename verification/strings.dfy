/** The pieces of Python's `str` behaviour the parser relies on: `split` with
    a non-empty separator, `join` as its inverse, substring search, and the
    decimal digits that `\d` and `int()` accept. */
module Strings {

  // ---------------------------------------------------------------------------
  // split and join
  // ---------------------------------------------------------------------------

  /** Python's `s.split(sep)` for a non-empty `sep`: scanning left to right,
      `s` is cut at every non-overlapping occurrence of `sep`. The result is
      never empty; `"".split(sep)` is `[""]`. */
  function Split(s: string, sep: string): (parts: seq<string>)
    requires |sep| > 0
    ensures |parts| >= 1
    decreases |s|
  {
    if |s| < |sep| then [s]
    else if s[..|sep|] == sep then [""] + Split(s[|sep|..], sep)
    else
      var rest := Split(s[1..], sep);
      [[s[0]] + rest[0]] + rest[1..]
  }

  /** Python's `sep.join(parts)`. */
  function Join(parts: seq<string>, sep: string): string
  {
    if |parts| == 0 then ""
    else if |parts| == 1 then parts[0]
    else parts[0] + sep + Join(parts[1..], sep)
  }

  /** Python's `t in s` for strings. */
  predicate Contains(s: string, t: string)
    decreases |s|
  {
    |t| <= |s| && (s[..|t|] == t || (|s| > 0 && Contains(s[1..], t)))
  }

  /** The number of occurrences of `c` in `s`. */
  function Count(s: string, c: char): nat
  {
    if |s| == 0 then 0
    else (if s[0] == c then 1 else 0) + Count(s[1..], c)
  }

  lemma JoinPrepend(ch: char, parts: seq<string>, sep: string)
    requires |parts| >= 1
    ensures Join([[ch] + parts[0]] + parts[1..], sep) == [ch] + Join(parts, sep)
  {
    var q := [[ch] + parts[0]] + parts[1..];
    assert q[1..] == parts[1..];
  }

  /** Joining two non-empty lists puts one separator between their joins. */
  lemma {:induction false} JoinAppend(a: seq<string>, b: seq<string>, sep: string)
    requires |a| > 0 && |b| > 0
    ensures Join(a + b, sep) == Join(a, sep) + sep + Join(b, sep)
    decreases |a|
  {
    if |a| == 1 {
      assert (a + b)[1..] == b;
    } else {
      assert (a + b)[1..] == a[1..] + b;
      JoinAppend(a[1..], b, sep);
    }
  }

  /** Joining the pieces of a split with the same separator gives back the string. */
  lemma {:induction false} SplitJoin(s: string, sep: string)
    requires |sep| > 0
    ensures Join(Split(s, sep), sep) == s
    decreases |s|
  {
    if |s| < |sep| {
    } else if s[..|sep|] == sep {
      SplitJoin(s[|sep|..], sep);
      var rest := Split(s[|sep|..], sep);
      assert Split(s, sep) == [""] + rest;
      assert ([""] + rest)[1..] == rest;
      assert Join([""] + rest, sep) == sep + Join(rest, sep);
      assert s == s[..|sep|] + s[|sep|..];
    } else {
      SplitJoin(s[1..], sep);
      var rest := Split(s[1..], sep);
      assert Split(s, sep) == [[s[0]] + rest[0]] + rest[1..];
      JoinPrepend(s[0], rest, sep);
      assert s == [s[0]] + s[1..];
    }
  }

  /** The first piece of a split is the text before the first occurrence of
      the separator: a prefix of `s` that does not contain `sep`, which is
      either all of `s` or is followed in `s` by `sep`. */
  lemma FirstPiece(s: string, sep: string)
    requires |sep| > 0
    ensures var p := Split(s, sep)[0];
      && |p| <= |s| && p == s[..|p|]
      && !Contains(p, sep)
      && (p == s || (|p| + |sep| <= |s| && s[|p|..|p| + |sep|] == sep))
  {
    FirstPiecePrefix(s, sep);
    FirstPieceClean(s, sep);
    FirstPieceFollowed(s, sep);
  }

  lemma {:induction false} FirstPiecePrefix(s: string, sep: string)
    requires |sep| > 0
    ensures var p := Split(s, sep)[0]; |p| <= |s| && p == s[..|p|]
    decreases |s|
  {
    if |s| >= |sep| && s[..|sep|] != sep {
      FirstPiecePrefix(s[1..], sep);
      var q := Split(s[1..], sep)[0];
      assert s[..|q| + 1] == [s[0]] + s[1..][..|q|];
    }
  }

  lemma {:induction false} FirstPieceClean(s: string, sep: string)
    requires |sep| > 0
    ensures !Contains(Split(s, sep)[0], sep)
    decreases |s|
  {
    if |s| >= |sep| && s[..|sep|] != sep {
      FirstPieceClean(s[1..], sep);
      FirstPiecePrefix(s, sep);
      var p, q := Split(s, sep)[0], Split(s[1..], sep)[0];
      assert p == [s[0]] + q;
      assert p[1..] == q;
      if |sep| <= |p| {
        assert p[..|sep|] == s[..|sep|];
      }
    }
  }

  lemma {:induction false} FirstPieceFollowed(s: string, sep: string)
    requires |sep| > 0
    ensures var p := Split(s, sep)[0];
      p == s || (|p| + |sep| <= |s| && s[|p|..|p| + |sep|] == sep)
    decreases |s|
  {
    if |s| >= |sep| && s[..|sep|] == sep {
      assert s[0..|sep|] == s[..|sep|];
    } else if |s| >= |sep| {
      FirstPieceFollowed(s[1..], sep);
      var p, q := Split(s, sep)[0], Split(s[1..], sep)[0];
      assert p == [s[0]] + q;
      if q != s[1..] {
        assert s[|p|..|p| + |sep|] == s[1..][|q|..|q| + |sep|];
      } else {
        assert p == s;
      }
    }
  }

  /** `t` occurs in `s` starting at index `i`. */
  predicate OccursAt(s: string, t: string, i: int)
  {
    0 <= i && i + |t| <= |s| && s[i..i + |t|] == t
  }

  /** `t in s` holds exactly when `t` occurs in `s` at some position. */
  lemma {:induction false} ContainsAt(s: string, t: string)
    ensures Contains(s, t) <==> exists i :: OccursAt(s, t, i)
    decreases |s|
  {
    if |t| <= |s| && |s| > 0 {
      ContainsAt(s[1..], t);
      if s[..|t|] == t {
        assert OccursAt(s, t, 0);
      } else if Contains(s[1..], t) {
        var i :| OccursAt(s[1..], t, i);
        assert OccursAt(s, t, i + 1);
      }
      if exists i :: OccursAt(s, t, i) {
        var i :| OccursAt(s, t, i);
        if i > 0 {
          assert OccursAt(s[1..], t, i - 1);
        }
      }
    } else if |t| <= |s| {
      assert OccursAt(s, t, 0);
    }
  }

  /** A one-character string occurs in `s` exactly when that character is in `s`. */
  lemma {:induction false} ContainsSingle(s: string, c: char)
    ensures Contains(s, [c]) <==> c in s
    decreases |s|
  {
    if |s| > 0 {
      ContainsSingle(s[1..], c);
      assert s == [s[0]] + s[1..];
      assert s[..1] == [s[0]];
    }
  }

  /** A string contains only what its characters can spell. */
  lemma {:induction false} ContainsOnlyPresent(s: string, t: string, k: nat)
    requires k < |t| && t[k] !in s
    ensures !Contains(s, t)
    decreases |s|
  {
    if |s| > 0 {
      ContainsOnlyPresent(s[1..], t, k);
    }
  }

  /** The text before a separator whose first character does not recur in it
      is exactly the part before the first occurrence of that separator. */
  lemma {:induction false} FirstPieceBefore(base: string, sep: string, rest: string)
    requires |sep| > 0
    requires forall i | 1 <= i < |sep| :: sep[i] != sep[0]
    requires !Contains(base, sep)
    ensures Split(base + sep + rest, sep)[0] == base
    decreases |base|
  {
    var s := base + sep + rest;
    if |base| == 0 {
      assert s[..|sep|] == sep;
    } else {
      assert s[..|sep|] != sep by {
        if |base| >= |sep| {
          assert s[..|sep|] == base[..|sep|];
        } else {
          assert s[|base|] == sep[0];
        }
      }
      assert !Contains(base[1..], sep);
      FirstPieceBefore(base[1..], sep, rest);
      assert s[1..] == base[1..] + sep + rest;
      assert base == [base[0]] + base[1..];
    }
  }

  // ---------------------------------------------------------------------------
  // splitting on a single character
  // ---------------------------------------------------------------------------

  /** Splitting on one character gives one more piece than it has occurrences. */
  lemma {:induction false} SplitLength(s: string, c: char)
    ensures |Split(s, [c])| == Count(s, c) + 1
    decreases |s|
  {
    if |s| > 0 {
      SplitLength(s[1..], c);
      assert s[..1] == [s[0]];
    }
  }

  /** A string free of the separator is a single piece. */
  lemma SplitWithout(s: string, c: char)
    requires c !in s
    ensures Split(s, [c]) == [s]
  {
    SplitLength(s, c);
    CountZero(s, c);
    SplitJoin(s, [c]);
  }

  lemma {:induction false} CountZero(s: string, c: char)
    requires c !in s
    ensures Count(s, c) == 0
    decreases |s|
  {
    if |s| > 0 {
      assert s[0] != c;
      CountZero(s[1..], c);
    }
  }

  /** Splitting distributes over an occurrence of the separator. */
  lemma {:induction false} SplitAppend(a: string, c: char, b: string)
    ensures Split(a + [c] + b, [c]) == Split(a, [c]) + Split(b, [c])
    decreases |a|
  {
    var s := a + [c] + b;
    if |a| == 0 {
      assert s[..1] == [c];
      assert s[1..] == b;
    } else if a[0] == c {
      assert s[..1] == [c];
      assert a[..1] == [c];
      assert s[1..] == a[1..] + [c] + b;
      SplitAppend(a[1..], c, b);
    } else {
      assert s[0] == a[0];
      assert s[..1] != [c];
      assert s[1..] == a[1..] + [c] + b;
      SplitAppend(a[1..], c, b);
      var ra := Split(a[1..], [c]);
      assert a[..1] != [c];
      assert ([[a[0]] + ra[0]] + ra[1..]) + Split(b, [c])
          == [[a[0]] + (ra + Split(b, [c]))[0]] + (ra + Split(b, [c]))[1..];
    }
  }

  /** No piece of a single-character split contains that character. */
  lemma {:induction false} SplitPiecesLack(s: string, c: char)
    ensures forall i | 0 <= i < |Split(s, [c])| :: c !in Split(s, [c])[i]
    decreases |s|
  {
    if |s| > 0 {
      SplitPiecesLack(s[1..], c);
      assert s[..1] == [s[0]];
      var rest := Split(s[1..], [c]);
      if s[0] != c {
        var parts := Split(s, [c]);
        forall i | 0 <= i < |parts|
          ensures c !in parts[i]
        {
          if i == 0 {
            assert parts[0] == [s[0]] + rest[0];
          } else {
            assert parts[i] == rest[i];
          }
        }
      }
    }
  }

  /** Occurrences add up over a concatenation of three parts... */
  lemma {:induction false} CountSplit(a: string, mid: string, b: string, c: char)
    ensures Count(a + mid + b, c) == Count(a, c) + Count(mid, c) + Count(b, c)
    decreases |a|
  {
    if |a| > 0 {
      assert (a + mid + b)[1..] == a[1..] + mid + b;
      CountSplit(a[1..], mid, b, c);
    } else {
      assert a + mid + b == mid + b;
      CountAppend(mid, b, c);
    }
  }

  /** ...and of two. */
  lemma {:induction false} CountAppend(a: string, b: string, c: char)
    ensures Count(a + b, c) == Count(a, c) + Count(b, c)
    decreases |a|
  {
    if |a| > 0 {
      assert (a + b)[1..] == a[1..] + b;
      CountAppend(a[1..], b, c);
    } else {
      assert a + b == b;
    }
  }

  /** The last component after splitting on `c`: the text after the final `c`. */
  function LastPiece(s: string, c: char): string
  {
    var parts := Split(s, [c]);
    parts[|parts| - 1]
  }

  /** The last piece holds no separator. */
  lemma LastPieceLacks(s: string, c: char)
    ensures c !in LastPiece(s, c)
  {
    SplitPiecesLack(s, c);
  }

  /** The first piece of a prefix of `t` is a prefix of `t`. */
  lemma FirstPieceOfPrefix(p: string, sep: string, t: string)
    requires |sep| > 0
    requires |p| <= |t| && p == t[..|p|]
    ensures var q := Split(p, sep)[0]; |q| <= |t| && q == t[..|q|]
  {
    FirstPiecePrefix(p, sep);
    var q := Split(p, sep)[0];
    assert q == p[..|q|];
  }

  /** Everything before the last separator is irrelevant to the last piece. */
  lemma LastPieceAfter(prefix: string, c: char, s: string)
    ensures LastPiece(prefix + [c] + s, c) == LastPiece(s, c)
  {
    SplitAppend(prefix, c, s);
  }

  // ---------------------------------------------------------------------------
  // decimal digits
  // ---------------------------------------------------------------------------

  /** An ASCII decimal digit, what `\d` and `int()` accept in this model. */
  predicate IsDigit(ch: char)
  {
    '0' <= ch <= '9'
  }

  /** A possibly empty run of decimal digits. */
  predicate AllDigits(s: string)
  {
    forall i | 0 <= i < |s| :: IsDigit(s[i])
  }

  /** The value of a run of decimal digits, leading zeros allowed, as `int()` reads it. */
  function DigitsValue(s: string): nat
    requires AllDigits(s)
  {
    if |s| == 0 then 0
    else DigitsValue(s[..|s| - 1]) * 10 + ((s[|s| - 1] as int) - ('0' as int))
  }

  /** The decimal rendering of `n` without leading zeros, as `str(n)` writes it. */
  function NatToDigits(n: nat): (s: string)
    ensures |s| > 0 && AllDigits(s)
    ensures DigitsValue(s) == n
  {
    var d := (('0' as int) + n % 10) as char;
    if n < 10 then [d]
    else
      var high := NatToDigits(n / 10);
      var s := high + [d];
      assert s[..|s| - 1] == high;
      s
  }
}
