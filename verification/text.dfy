/** The string operations of Go's `strings` package that the doctor check
    relies on: `TrimSpace`, `HasPrefix` and `Split` with a one-character
    separator. Strings are sequences of Unicode scalar values. */
module Text {

  /** Go's `unicode.IsSpace`: the Latin-1 spaces plus the other characters
      with the Unicode White_Space property. */
  predicate IsSpace(c: char)
  {
    || c == ' ' || c == '\t' || c == '\n' || c == '\r'
    || c == '\U{B}' || c == '\U{C}' || c == '\U{85}' || c == '\U{A0}'
    || c == '\U{1680}' || ('\U{2000}' <= c <= '\U{200A}')
    || c == '\U{2028}' || c == '\U{2029}' || c == '\U{202F}'
    || c == '\U{205F}' || c == '\U{3000}'
  }

  predicate AllSpace(s: string)
  {
    forall i :: 0 <= i < |s| ==> IsSpace(s[i])
  }

  /** A string that neither starts nor ends with white space. */
  predicate IsTrimmed(s: string)
  {
    |s| > 0 ==> !IsSpace(s[0]) && !IsSpace(s[|s| - 1])
  }

  /** Drops the leading white space. */
  function TrimStart(s: string): (r: string)
    ensures |r| <= |s| && r == s[|s| - |r|..]
    ensures AllSpace(s[..|s| - |r|])
    ensures |r| > 0 ==> !IsSpace(r[0])
  {
    if |s| > 0 && IsSpace(s[0]) then TrimStart(s[1..]) else s
  }

  /** Drops the trailing white space. */
  function TrimEnd(s: string): (r: string)
    ensures |r| <= |s| && r == s[..|r|]
    ensures AllSpace(s[|r|..])
    ensures |r| > 0 ==> !IsSpace(r[|r| - 1])
  {
    if |s| > 0 && IsSpace(s[|s| - 1]) then TrimEnd(s[..|s| - 1]) else s
  }

  /** Go's `strings.TrimSpace`: the input with its leading and trailing white
      space removed. The result is a slice of the input, only white space is
      cut away, and what is left starts and ends with a non-space (so the cut
      is the largest possible). */
  function TrimSpace(s: string): (r: string)
    ensures IsTrimmed(r)
    ensures exists i, j :: CutsSpace(s, i, j, r)
  {
    var t := TrimStart(s);
    var r := TrimEnd(t);
    var i := |s| - |t|;
    var j := i + |r|;
    assert CutsSpace(s, i, j, r) by {
      assert r == s[i..j] && AllSpace(s[..i]) by {
        assert t == s[i..];
      }
      assert AllSpace(s[j..]) by {
        assert s[j..] == t[|r|..];
      }
    }
    assert IsTrimmed(r) by {
      assert |r| > 0 ==> r[0] == t[0];
    }
    r
  }

  /** `r` is `s[i..j]` and everything outside that slice is white space. */
  predicate CutsSpace(s: string, i: int, j: int, r: string)
  {
    0 <= i <= j <= |s| && r == s[i..j] && AllSpace(s[..i]) && AllSpace(s[j..])
  }

  /** Trimming a string that has no white space at either end changes
      nothing; in particular `TrimSpace` is idempotent. */
  lemma TrimSpaceOfTrimmed(s: string)
    requires IsTrimmed(s)
    ensures TrimSpace(s) == s
  {
  }

  lemma TrimSpaceIdempotent(s: string)
    ensures TrimSpace(TrimSpace(s)) == TrimSpace(s)
  {
    TrimSpaceOfTrimmed(TrimSpace(s));
  }

  /** Trailing white space after a trimmed, non-empty string is all that
      `TrimSpace` removes: what a command prints before its newline. */
  lemma {:induction false} TrimSpacePadded(s: string, pad: string)
    requires |s| > 0 && IsTrimmed(s) && AllSpace(pad)
    ensures TrimSpace(s + pad) == s
  {
    assert TrimStart(s + pad) == s + pad;
    TrimEndPadded(s, pad);
  }

  lemma {:induction false} TrimEndPadded(s: string, pad: string)
    requires |s| > 0 && IsTrimmed(s) && AllSpace(pad)
    ensures TrimEnd(s + pad) == s
  {
    if |pad| > 0 {
      var shorter := pad[..|pad| - 1];
      assert (s + pad)[..|s + pad| - 1] == s + shorter;
      TrimEndPadded(s, shorter);
    } else {
      assert s + pad == s;
    }
  }

  /** A string of white space trims to nothing. */
  lemma TrimSpaceAllSpace(s: string)
    requires AllSpace(s)
    ensures TrimSpace(s) == ""
  {
  }

  /** Go's `strings.HasPrefix`. */
  predicate HasPrefix(s: string, prefix: string)
  {
    |prefix| <= |s| && s[..|prefix|] == prefix
  }

  /** The number of occurrences of `c` in `s`. */
  function Count(s: string, c: char): nat
  {
    if |s| == 0 then 0 else (if s[0] == c then 1 else 0) + Count(s[1..], c)
  }

  /** Go's `strings.Split` with a one-character separator: the maximal pieces
      of `s` between occurrences of `sep`. There is always one more piece than
      there are separators, so the empty string gives one empty piece and
      adjacent separators give an empty piece between them. */
  function Split(s: string, sep: char): (parts: seq<string>)
    ensures |parts| > 0
    ensures forall k :: 0 <= k < |parts| ==> sep !in parts[k]
  {
    if |s| == 0 then [""]
    else
      var rest := Split(s[1..], sep);
      if s[0] == sep then [""] + rest
      else [[s[0]] + rest[0]] + rest[1..]
  }

  /** There is one more piece than there are separators. */
  lemma {:induction false} SplitCount(s: string, sep: char)
    ensures |Split(s, sep)| == Count(s, sep) + 1
  {
    if |s| > 0 {
      SplitCount(s[1..], sep);
    }
  }

  /** Go's `strings.Join`: the pieces glued back together with `sep`. */
  function Join(parts: seq<string>, sep: char): string
    requires |parts| > 0
  {
    if |parts| == 1 then parts[0] else parts[0] + [sep] + Join(parts[1..], sep)
  }

  lemma JoinTwo(a: string, b: string, sep: char)
    ensures Join([a, b], sep) == a + [sep] + b
  {
    assert [a, b][1..] == [b];
  }

  lemma JoinThree(a: string, b: string, c: string, sep: char)
    ensures Join([a, b, c], sep) == a + [sep] + b + [sep] + c
  {
    assert [a, b, c][1..] == [b, c];
    JoinTwo(b, c, sep);
  }

  /** Splitting loses nothing: joining the pieces gives back the input. */
  lemma {:induction false} JoinSplit(s: string, sep: char)
    ensures Join(Split(s, sep), sep) == s
  {
    if |s| > 0 {
      var rest := Split(s[1..], sep);
      JoinSplit(s[1..], sep);
      if s[0] == sep {
        assert Split(s, sep)[1..] == rest;
      } else {
        var parts := Split(s, sep);
        if |rest| == 1 {
          assert parts == [[s[0]] + rest[0]];
        } else {
          assert parts[1..] == rest[1..];
          assert Join(rest, sep) == rest[0] + [sep] + Join(rest[1..], sep);
        }
        assert s == [s[0]] + s[1..];
      }
    }
  }

  /** Splitting a separator-free string gives that string as its only piece. */
  lemma {:induction false} SplitWithoutSeparator(s: string, sep: char)
    requires sep !in s
    ensures Split(s, sep) == [s]
  {
    if |s| > 0 {
      SplitWithoutSeparator(s[1..], sep);
      assert s == [s[0]] + s[1..];
    }
  }

  /** A separator in the middle splits the pieces of the two sides apart. */
  lemma {:induction false} SplitAppend(x: string, sep: char, y: string)
    ensures Split(x + [sep] + y, sep) == Split(x, sep) + Split(y, sep)
  {
    var s := x + [sep] + y;
    if |x| == 0 {
      assert s[1..] == y;
    } else {
      assert s[1..] == x[1..] + [sep] + y;
      SplitAppend(x[1..], sep, y);
    }
  }

  /** The other half of the round trip: pieces free of the separator come
      back unchanged from joining and splitting again. */
  lemma {:induction false} SplitJoin(parts: seq<string>, sep: char)
    requires |parts| > 0
    requires forall k :: 0 <= k < |parts| ==> sep !in parts[k]
    ensures Split(Join(parts, sep), sep) == parts
  {
    SplitWithoutSeparator(parts[0], sep);
    if |parts| > 1 {
      SplitJoin(parts[1..], sep);
      SplitAppend(parts[0], sep, Join(parts[1..], sep));
      assert parts == [parts[0]] + parts[1..];
    }
  }

  /** The first three pieces of "a, sep, b, sep, c, tail" are a, b and c when
      none of them contains the separator and the tail is empty or starts
      with one. */
  lemma SplitThreeFields(a: string, b: string, c: string, tail: string, sep: char)
    requires sep !in a && sep !in b && sep !in c
    requires tail == [] || tail[0] == sep
    ensures var parts := Split(a + [sep] + b + [sep] + c + tail, sep);
      |parts| >= 3 && parts[0] == a && parts[1] == b && parts[2] == c
  {
    var s := a + [sep] + b + [sep] + c + tail;
    var ab := a + [sep] + b;
    var rest := c + tail;
    assert Split(s, sep) == Split(ab, sep) + Split(rest, sep) by {
      assert s == ab + [sep] + rest;
      SplitAppend(ab, sep, rest);
    }
    assert Split(ab, sep) == [a, b] by {
      SplitAppend(a, sep, b);
      SplitWithoutSeparator(a, sep);
      SplitWithoutSeparator(b, sep);
    }
    assert Split(rest, sep)[0] == c by {
      SplitWithoutSeparator(c, sep);
      if tail == [] {
        assert rest == c;
      } else {
        assert rest == c + [sep] + tail[1..];
        SplitAppend(c, sep, tail[1..]);
      }
    }
  }
}
