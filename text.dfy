/** The JavaScript string operations the forms and the search rely on:
    `trim`, `toLowerCase`, `includes`, `split` on one character and `join`. */
module Text {

  /** ECMAScript's WhiteSpace and LineTerminator characters, the set that
      `String.prototype.trim` strips: tab, vertical tab, form feed, space,
      no-break space, the byte order mark, the other space separators of
      Unicode category Zs, line feed, carriage return, and the line and
      paragraph separators. */
  predicate IsWhitespace(c: char)
  {
    || c == '\t' || c == '\U{000B}' || c == '\U{000C}' || c == ' '
    || c == '\U{00A0}' || c == '\U{FEFF}' || c == '\U{1680}'
    || ('\U{2000}' <= c <= '\U{200A}')
    || c == '\U{202F}' || c == '\U{205F}' || c == '\U{3000}'
    || c == '\n' || c == '\r' || c == '\U{2028}' || c == '\U{2029}'
  }

  predicate AllWhitespace(s: string)
  {
    AllBlank(IsWhitespace, s)
  }

  /** Neither end of `s` is a whitespace character (vacuously so for ""). */
  predicate Trimmed(s: string)
  {
    EndsNotBlank(IsWhitespace, s)
  }

  /** `s.trim()`: no whitespace at either end, and empty exactly when `s`
      is all whitespace. `TrimSlice` says which piece of `s` it is, `TrimOf`
      that these promises determine it. */
  function Trim(s: string): (r: string)
    ensures Trimmed(r)
    ensures r == [] <==> AllWhitespace(s)
  {
    StripEnds(IsWhitespace, s);
    Strip(IsWhitespace, s)
  }

  /** `Trim(s)` is a contiguous piece of `s` with only whitespace around it. */
  lemma {:induction false} TrimSlice(s: string) returns (i: int)
    ensures 0 <= i <= |s| - |Trim(s)| && Trim(s) == s[i..i + |Trim(s)|]
    ensures AllWhitespace(s[..i]) && AllWhitespace(s[i + |Trim(s)|..])
  {
    StripSlice(IsWhitespace, s);
    i := LeadingBlanks(IsWhitespace, s);
  }

  /** Whatever sits between whitespace on both sides and has no whitespace
      at either end is what `trim` returns. */
  lemma {:induction false} TrimOf(a: string, m: string, b: string)
    requires AllWhitespace(a) && AllWhitespace(b) && Trimmed(m)
    ensures Trim(a + m + b) == m
  {
    StripOf(IsWhitespace, a, m, b);
  }

  /** Surrounding whitespace never changes what `trim` returns. */
  lemma {:induction false} TrimIgnoresSurroundings(pre: string, s: string, post: string)
    requires AllWhitespace(pre) && AllWhitespace(post)
    ensures Trim(pre + s + post) == Trim(s)
  {
    StripIgnoresSurroundings(IsWhitespace, pre, s, post);
  }

  /** Trimming twice is trimming once. */
  lemma {:induction false} TrimIdempotent(s: string)
    ensures Trim(Trim(s)) == Trim(s)
  {
    StripEnds(IsWhitespace, s);
    StripOf(IsWhitespace, [], Trim(s), []);
    assert [] + Trim(s) + [] == Trim(s);
  }

  // Trimming by an arbitrary set of blank characters. The lemmas are proved
  // once for any such set; `Trim` above fixes it to ECMAScript's.

  predicate AllBlank(blank: char -> bool, s: string)
  {
    forall i :: 0 <= i < |s| ==> blank(s[i])
  }

  predicate EndsNotBlank(blank: char -> bool, s: string)
  {
    s == [] || (!blank(s[0]) && !blank(s[|s| - 1]))
  }

  /** How many blanks `s` starts with. */
  function LeadingBlanks(blank: char -> bool, s: string): (n: nat)
    ensures n <= |s|
    ensures forall k :: 0 <= k < n ==> blank(s[k])
    ensures n < |s| ==> !blank(s[n])
    decreases |s|
  {
    if s != [] && blank(s[0]) then
      var m := LeadingBlanks(blank, s[1..]);
      assert forall k :: 1 <= k <= |s| - 1 ==> s[k] == s[1..][k - 1];
      m + 1
    else 0
  }

  /** How many blanks `s` ends with. */
  function TrailingBlanks(blank: char -> bool, s: string): (n: nat)
    ensures n <= |s|
    ensures forall k :: |s| - n <= k < |s| ==> blank(s[k])
    ensures n < |s| ==> !blank(s[|s| - n - 1])
    decreases |s|
  {
    if s != [] && blank(s[|s| - 1]) then
      var m := TrailingBlanks(blank, s[..|s| - 1]);
      assert forall k :: 0 <= k < |s| - 1 ==> s[k] == s[..|s| - 1][k];
      m + 1
    else 0
  }

  /** `s` without its leading and trailing blanks. */
  function Strip(blank: char -> bool, s: string): string
  {
    var rest := s[LeadingBlanks(blank, s)..];
    rest[..|rest| - TrailingBlanks(blank, rest)]
  }

  /** Neither end of the stripped string is blank, and it is empty exactly
      when `s` is all blanks. */
  lemma {:induction false} StripEnds(blank: char -> bool, s: string)
    ensures EndsNotBlank(blank, Strip(blank, s))
    ensures Strip(blank, s) == [] <==> AllBlank(blank, s)
  {
    StripEndsNotBlank(blank, s);
    if Strip(blank, s) == [] {
      StripEmptyAllBlank(blank, s);
    }
    if LeadingBlanks(blank, s) < |s| {
      assert !blank(s[LeadingBlanks(blank, s)]);
    }
  }

  lemma {:induction false} StripEndsNotBlank(blank: char -> bool, s: string)
    ensures EndsNotBlank(blank, Strip(blank, s))
  {
    var i := LeadingBlanks(blank, s);
    var rest := s[i..];
    var n := TrailingBlanks(blank, rest);
    var r := Strip(blank, s);
    if r != [] {
      assert r[0] == rest[0] == s[i];
      assert r[|r| - 1] == rest[|rest| - n - 1];
    }
  }

  lemma {:induction false} StripEmptyAllBlank(blank: char -> bool, s: string)
    requires Strip(blank, s) == []
    ensures AllBlank(blank, s)
  {
    var i := LeadingBlanks(blank, s);
    var rest := s[i..];
    var n := TrailingBlanks(blank, rest);
    assert n == |rest|;
    StripSliceLead(blank, s);
    BlankConcat(blank, s[..i], rest);
    assert s == s[..i] + rest;
  }

  lemma {:induction false} BlankConcat(blank: char -> bool, a: string, b: string)
    ensures AllBlank(blank, a + b) <==> AllBlank(blank, a) && AllBlank(blank, b)
  {
    if AllBlank(blank, a) && AllBlank(blank, b) {
      forall k | 0 <= k < |a + b|
        ensures blank((a + b)[k])
      {
        if k >= |a| {
          assert (a + b)[k] == b[k - |a|];
        }
      }
    }
    if AllBlank(blank, a + b) {
      forall k | 0 <= k < |a|
        ensures blank(a[k])
      {
        assert (a + b)[k] == a[k];
      }
      forall k | 0 <= k < |b|
        ensures blank(b[k])
      {
        assert (a + b)[|a| + k] == b[k];
      }
    }
  }

  /** `Strip(blank, s)` is the piece of `s` after its leading blanks, with
      only blanks before and after it. */
  lemma {:induction false} StripSlice(blank: char -> bool, s: string)
    ensures LeadingBlanks(blank, s) + |Strip(blank, s)| <= |s|
    ensures Strip(blank, s) == s[LeadingBlanks(blank, s)..LeadingBlanks(blank, s) + |Strip(blank, s)|]
    ensures AllBlank(blank, s[..LeadingBlanks(blank, s)])
    ensures AllBlank(blank, s[LeadingBlanks(blank, s) + |Strip(blank, s)|..])
  {
    StripSliceCore(blank, s);
    StripSliceLead(blank, s);
    StripSliceTrail(blank, s);
  }

  lemma {:induction false} StripSliceCore(blank: char -> bool, s: string)
    ensures LeadingBlanks(blank, s) + |Strip(blank, s)| <= |s|
    ensures Strip(blank, s) == s[LeadingBlanks(blank, s)..LeadingBlanks(blank, s) + |Strip(blank, s)|]
  {
    var i := LeadingBlanks(blank, s);
    var rest := s[i..];
    var n := TrailingBlanks(blank, rest);
    assert Strip(blank, s) == rest[..|rest| - n];
  }

  lemma {:induction false} StripSliceLead(blank: char -> bool, s: string)
    ensures AllBlank(blank, s[..LeadingBlanks(blank, s)])
  {
    var i := LeadingBlanks(blank, s);
    var lead := s[..i];
    forall k | 0 <= k < |lead|
      ensures blank(lead[k])
    {
      assert lead[k] == s[k];
    }
  }

  lemma {:induction false} StripSliceTrail(blank: char -> bool, s: string)
    ensures LeadingBlanks(blank, s) + |Strip(blank, s)| <= |s|
    ensures AllBlank(blank, s[LeadingBlanks(blank, s) + |Strip(blank, s)|..])
  {
    var i := LeadingBlanks(blank, s);
    var n := TrailingBlanks(blank, s[i..]);
    assert |Strip(blank, s)| == |s| - i - n;
    BlankSuffix(blank, s, i, n);
  }

  /** Blanks that end `s[i..]` end `s` too. */
  lemma {:induction false} BlankSuffix(blank: char -> bool, s: string, i: nat, n: nat)
    requires i + n <= |s|
    requires forall k :: |s[i..]| - n <= k < |s[i..]| ==> blank(s[i..][k])
    ensures AllBlank(blank, s[|s| - n..])
  {
    var rest := s[i..];
    var trail := s[|s| - n..];
    forall k | 0 <= k < |trail|
      ensures blank(trail[k])
    {
      assert trail[k] == rest[|rest| - n + k];
    }
  }

  lemma {:induction false} LeadingSkips(blank: char -> bool, a: string, t: string)
    requires AllBlank(blank, a)
    requires t == [] || !blank(t[0])
    ensures LeadingBlanks(blank, a + t) == |a|
    decreases |a|
  {
    if a == [] {
      assert a + t == t;
    } else {
      assert (a + t)[0] == a[0] && (a + t)[1..] == a[1..] + t;
      LeadingSkips(blank, a[1..], t);
    }
  }

  lemma {:induction false} TrailingSkips(blank: char -> bool, t: string, b: string)
    requires AllBlank(blank, b)
    requires t == [] || !blank(t[|t| - 1])
    ensures TrailingBlanks(blank, t + b) == |b|
    decreases |b|
  {
    if b == [] {
      assert t + b == t;
    } else {
      var n := |t + b|;
      assert (t + b)[n - 1] == b[|b| - 1];
      assert (t + b)[..n - 1] == t + b[..|b| - 1];
      TrailingSkips(blank, t, b[..|b| - 1]);
    }
  }

  lemma {:induction false} StripOf(blank: char -> bool, a: string, m: string, b: string)
    requires AllBlank(blank, a) && AllBlank(blank, b) && EndsNotBlank(blank, m)
    ensures Strip(blank, a + m + b) == m
  {
    if m == [] {
      assert a + m + b == a + b;
      BlankConcat(blank, a, b);
      StripEnds(blank, a + m + b);
    } else {
      var s := a + m + b;
      assert s == a + (m + b);
      LeadingSkips(blank, a, m + b);
      assert s[|a|..] == m + b;
      TrailingSkips(blank, m, b);
      assert (m + b)[..|m|] == m;
    }
  }

  lemma {:induction false} StripIgnoresSurroundings(blank: char -> bool, pre: string, s: string, post: string)
    requires AllBlank(blank, pre) && AllBlank(blank, post)
    ensures Strip(blank, pre + s + post) == Strip(blank, s)
  {
    var i, r, lead, trail := StripPieces(blank, s);
    var a, b := pre + lead, trail + post;
    Regroup(pre, lead, r, trail, post);
    WidenBlanks(blank, pre, lead, trail, post);
    StripOf(blank, a, r, b);
  }

  /** `s` cut into its leading blanks, its stripped core and its trailing blanks. */
  lemma {:induction false} StripPieces(blank: char -> bool, s: string) returns (i: int, r: string, lead: string, trail: string)
    ensures r == Strip(blank, s) && EndsNotBlank(blank, r)
    ensures s == lead + r + trail
    ensures AllBlank(blank, lead) && AllBlank(blank, trail)
  {
    r := Strip(blank, s);
    i := LeadingBlanks(blank, s);
    StripSlice(blank, s);
    StripEndsNotBlank(blank, s);
    lead, trail := s[..i], s[i + |r|..];
    assert s == s[..i] + s[i..i + |r|] + s[i + |r|..];
  }

  lemma {:induction false} WidenBlanks(blank: char -> bool, a: string, b: string, c: string, d: string)
    requires AllBlank(blank, a) && AllBlank(blank, b) && AllBlank(blank, c) && AllBlank(blank, d)
    ensures AllBlank(blank, a + b) && AllBlank(blank, c + d)
  {
    BlankConcat(blank, a, b);
    BlankConcat(blank, c, d);
  }

  lemma Regroup(pre: string, lead: string, r: string, trail: string, post: string)
    ensures pre + (lead + r + trail) + post == (pre + lead) + r + (trail + post)
  {
  }

  /** The ASCII part of `String.prototype.toLowerCase`. */
  function LowerChar(c: char): char
  {
    if 'A' <= c <= 'Z' then (c as int - 'A' as int + 'a' as int) as char else c
  }

  /** `s.toLowerCase()`, character by character. */
  function ToLower(s: string): (r: string)
    ensures |r| == |s|
    ensures forall i :: 0 <= i < |s| ==> r[i] == LowerChar(s[i])
  {
    seq(|s|, i requires 0 <= i < |s| => LowerChar(s[i]))
  }

  /** `s.includes(sub)`: `sub` occurs in `s` at some position. */
  predicate Includes(s: string, sub: string)
  {
    exists i :: 0 <= i <= |s| && sub <= s[i..]
  }

  /** `parts.join(sep)`. */
  function Join(parts: seq<string>, sep: string): string
    decreases |parts|
  {
    if parts == [] then ""
    else if |parts| == 1 then parts[0]
    else parts[0] + sep + Join(parts[1..], sep)
  }

  /** `s.split(sep)` for a one-character separator: the pieces between the
      separators, at least one, none containing it, and joining them back
      with the separator gives `s` again. */
  function Split(s: string, sep: char): (r: seq<string>)
    ensures |r| >= 1
    ensures forall k :: 0 <= k < |r| ==> sep !in r[k]
    ensures Join(r, [sep]) == s
    decreases |s|
  {
    if s == [] then [[]]
    else
      var rest := Split(s[1..], sep);
      if s[0] == sep then
        assert Join([[]] + rest, [sep]) == [sep] + Join(rest, [sep]) by {
          assert ([[]] + rest)[1..] == rest;
        }
        [[]] + rest
      else
        var r := [[s[0]] + rest[0]] + rest[1..];
        assert Join(r, [sep]) == [s[0]] + Join(rest, [sep]) by {
          if |rest| > 1 {
            assert r[1..] == rest[1..];
          }
        }
        r
  }

  /** Splitting a join recovers the pieces when none contains the separator. */
  lemma {:induction false} SplitJoin(parts: seq<string>, sep: char)
    requires |parts| >= 1
    requires forall k :: 0 <= k < |parts| ==> sep !in parts[k]
    ensures Split(Join(parts, [sep]), sep) == parts
    decreases |parts|
  {
    if |parts| == 1 {
      SplitPiece(parts[0], sep);
    } else {
      SplitJoin(parts[1..], sep);
      SplitAfter(parts[0], Join(parts[1..], [sep]), sep);
      assert [parts[0]] + parts[1..] == parts;
    }
  }

  /** A string without the separator splits into itself. */
  lemma {:induction false} SplitPiece(a: string, sep: char)
    requires sep !in a
    ensures Split(a, sep) == [a]
    decreases |a|
  {
    if a != [] {
      SplitPiece(a[1..], sep);
    }
  }

  /** The first separator ends the first piece. */
  lemma {:induction false} SplitAfter(a: string, b: string, sep: char)
    requires sep !in a
    ensures Split(a + [sep] + b, sep) == [a] + Split(b, sep)
    decreases |a|
  {
    if a == [] {
      assert (a + [sep] + b)[0] == sep && (a + [sep] + b)[1..] == b;
    } else {
      assert (a + [sep] + b)[0] == a[0] && (a + [sep] + b)[1..] == a[1..] + [sep] + b;
      assert a[0] != sep && [a[0]] + a[1..] == a;
      SplitAfter(a[1..], b, sep);
    }
  }
}
