/**
  The string operations of Rust's `str` that the core relies on, modelled on
  `seq<char>`: `split` with a non-empty pattern, `collect::<String>()` of the
  pieces (Join), `replace`, and `trim_end`. Patterns are matched left to right
  and matches do not overlap, as in Rust.
*/
module Text {

  /** `pat` occurs in `s` starting at index `i`. */
  predicate MatchAt(s: string, pat: string, i: nat)
  {
    i + |pat| <= |s| && forall j :: 0 <= j < |pat| ==> s[i + j] == pat[j]
  }

  /** No occurrence of `pat` starts in `s` before index `k`. */
  ghost predicate NoMatchBefore(s: string, pat: string, k: nat)
  {
    forall i: nat :: i < k ==> !MatchAt(s, pat, i)
  }

  /** `pat` occurs nowhere in `s`. */
  ghost predicate Absent(pat: string, s: string)
  {
    NoMatchBefore(s, pat, |s| + 1)
  }

  /** The first index at or after `i` where `sep` occurs in `s`, or `|s|` when there is none. */
  function FirstMatchFrom(s: string, sep: string, i: nat): (k: nat)
    requires |sep| > 0 && i <= |s|
    ensures i <= k <= |s|
    ensures k == |s| || k + |sep| <= |s|
    decreases |s| - i
  {
    if i + |sep| > |s| then |s|
    else if MatchAt(s, sep, i) then i
    else FirstMatchFrom(s, sep, i + 1)
  }

  /** Where the first occurrence of `sep` in `s` starts, or `|s|` when there is none. */
  function FirstMatch(s: string, sep: string): (k: nat)
    requires |sep| > 0
    ensures k <= |s|
    ensures k == |s| || k + |sep| <= |s|
  {
    FirstMatchFrom(s, sep, 0)
  }

  /**
    The pieces of `s` between the occurrences of `sep` (Rust `s.split(sep)`):
    the text up to the first occurrence, then the pieces of the text after it.
  */
  function Split(s: string, sep: string): (parts: seq<string>)
    requires |sep| > 0
    ensures |parts| >= 1
    decreases |s|
  {
    var k := FirstMatch(s, sep);
    if k == |s| then [s] else [s[..k]] + Split(s[k + |sep|..], sep)
  }

  /** The pieces glued together with `sep` between them; `Join(parts, "")` is `collect::<String>()`. */
  function Join(parts: seq<string>, sep: string): string
  {
    if |parts| == 0 then ""
    else if |parts| == 1 then parts[0]
    else parts[0] + sep + Join(parts[1..], sep)
  }

  /** Piece `i`, or "" when there is none (`skip(i).take(1).collect::<String>()`). */
  function Nth(parts: seq<string>, i: nat): string
  {
    if i < |parts| then parts[i] else ""
  }

  /**
    `s` with every occurrence of `pat` replaced by `to` (Rust `s.replace(pat, to)`):
    the text up to the first occurrence, then `to`, then the rest replaced.
  */
  function Replace(s: string, pat: string, to: string): string
    requires |pat| > 0
    decreases |s|
  {
    var k := FirstMatch(s, pat);
    if k == |s| then s else s[..k] + to + Replace(s[k + |pat|..], pat, to)
  }

  /** Rust's `char::is_whitespace`: the Unicode White_Space property. */
  predicate IsWhitespace(c: char)
  {
    ('\t' <= c <= '\r') || c == ' ' || c == '\U{0085}' || c == '\U{00A0}' || c == '\U{1680}'
    || ('\U{2000}' <= c <= '\U{200A}') || c == '\U{2028}' || c == '\U{2029}'
    || c == '\U{202F}' || c == '\U{205F}' || c == '\U{3000}'
  }

  /** Rust `s.trim_end()`: the longest prefix of `s` that does not end in whitespace. */
  function TrimEnd(s: string): (r: string)
    ensures |r| <= |s| && r == s[..|r|]
    ensures r == [] || !IsWhitespace(r[|r| - 1])
    ensures forall i :: |r| <= i < |s| ==> IsWhitespace(s[i])
  {
    if |s| > 0 && IsWhitespace(s[|s| - 1]) then TrimEnd(s[..|s| - 1]) else s
  }

  // ---------------------------------------------------------------------------
  // Split: the first piece and the rest

  /** A text is its three slices around `i` and `j`, glued back. */
  lemma {:induction false} CutTwice(s: string, i: nat, j: nat)
    requires i <= j <= |s|
    ensures s == s[..i] + s[i..j] + s[j..]
  {
  }

  lemma {:induction false} ConcatAssoc(a: string, b: string, c: string, d: string)
    ensures a + (b + c + d) == a + b + c + d
  {
  }

  /** An occurrence is a slice equal to the pattern. */
  lemma {:induction false} MatchSlice(s: string, pat: string, i: nat)
    requires MatchAt(s, pat, i)
    ensures s[i..i + |pat|] == pat
  {
  }

  lemma {:induction false} ShiftMatch(s: string, pat: string, i: nat)
    requires |s| > 0
    ensures MatchAt(s[1..], pat, i) <==> MatchAt(s, pat, i + 1)
  {
    if i + 1 + |pat| <= |s| {
      forall j | 0 <= j < |pat|
        ensures s[1..][i + j] == pat[j] <==> s[i + 1 + j] == pat[j]
      {
      }
    }
  }

  /** No match at 0 and none in the tail before `k`: none in `s` before `k + 1`. */
  lemma {:induction false} NoMatchShift(s: string, sep: string, k: nat)
    requires |s| > 0 && !MatchAt(s, sep, 0) && NoMatchBefore(s[1..], sep, k)
    ensures NoMatchBefore(s, sep, k + 1)
  {
    forall i: nat | i < k + 1
      ensures !MatchAt(s, sep, i)
    {
      if i > 0 {
        ShiftMatch(s, sep, i - 1);
      }
    }
  }

  /** The scan from `i` stops at an occurrence, or at `|s|`, and passes over none. */
  lemma {:induction false} FirstMatchFromIsFirst(s: string, sep: string, i: nat)
    requires |sep| > 0 && i <= |s| && NoMatchBefore(s, sep, i)
    ensures NoMatchBefore(s, sep, FirstMatchFrom(s, sep, i))
    ensures FirstMatchFrom(s, sep, i) == |s| || MatchAt(s, sep, FirstMatchFrom(s, sep, i))
    decreases |s| - i
  {
    if i + |sep| > |s| {
      forall j: nat | j < |s|
        ensures !MatchAt(s, sep, j)
      {
        if j >= i {
          assert j + |sep| > |s|;
        }
      }
    } else if !MatchAt(s, sep, i) {
      FirstMatchFromIsFirst(s, sep, i + 1);
    }
  }

  /** `FirstMatch` is an occurrence (unless it is `|s|`), and no occurrence comes before it. */
  lemma {:induction false} FirstMatchIsFirst(s: string, sep: string)
    requires |sep| > 0
    ensures NoMatchBefore(s, sep, FirstMatch(s, sep))
    ensures FirstMatch(s, sep) == |s| || MatchAt(s, sep, FirstMatch(s, sep))
  {
    FirstMatchFromIsFirst(s, sep, 0);
  }

  /** A text without `sep` has no first occurrence. */
  lemma {:induction false} FirstMatchNone(s: string, sep: string)
    requires |sep| > 0 && Absent(sep, s)
    ensures FirstMatch(s, sep) == |s|
  {
    FirstMatchIsFirst(s, sep);
  }

  /** One step of `Split` when `sep` occurs: the text before it, then the pieces after it. */
  lemma {:induction false} SplitUnfold(s: string, sep: string)
    requires |sep| > 0 && FirstMatch(s, sep) < |s|
    ensures var k := FirstMatch(s, sep); Split(s, sep) == [s[..k]] + Split(s[k + |sep|..], sep)
  {
  }

  /**
    The first piece of `Split(s, sep)` is the prefix of `s` up to the first
    occurrence of `sep`; when there is such an occurrence, the remaining pieces
    are those of the text after it, and otherwise `s` holds no `sep` at all.
  */
  lemma {:induction false} SplitHead(s: string, sep: string)
    requires |sep| > 0
    ensures var k := FirstMatch(s, sep);
            && Split(s, sep)[0] == s[..k] && NoMatchBefore(s, sep, k)
            && (k == |s| ==> Split(s, sep) == [s] && Absent(sep, s))
            && (k < |s| ==> MatchAt(s, sep, k) && Split(s, sep)[1..] == Split(s[k + |sep|..], sep))
  {
    FirstMatchIsFirst(s, sep);
    var k := FirstMatch(s, sep);
    if k == |s| {
      assert s[..k] == s;
      assert !MatchAt(s, sep, |s|);
    } else {
      SplitUnfold(s, sep);
      var rest := Split(s[k + |sep|..], sep);
      assert ([s[..k]] + rest)[1..] == rest;
    }
  }

  /** A match at `k` with none before it is the first match. */
  lemma {:induction false} FirstMatchAt(s: string, sep: string, k: nat)
    requires |sep| > 0
    requires NoMatchBefore(s, sep, k) && MatchAt(s, sep, k)
    ensures FirstMatch(s, sep) == k
  {
    FirstMatchIsFirst(s, sep);
  }

  /** If the first occurrence of `sep` in `s` is at `k`, the first piece is `s[..k]`. */
  lemma {:induction false} SplitAt(s: string, sep: string, k: nat)
    requires |sep| > 0
    requires NoMatchBefore(s, sep, k) && MatchAt(s, sep, k)
    ensures Split(s, sep) == [s[..k]] + Split(s[k + |sep|..], sep)
  {
    FirstMatchAt(s, sep, k);
  }

  /** A text without `sep` splits into itself alone. */
  lemma {:induction false} SplitAbsent(s: string, sep: string)
    requires |sep| > 0 && Absent(sep, s)
    ensures Split(s, sep) == [s]
  {
    FirstMatchNone(s, sep);
  }

  /** The part of `s` before its first occurrence of `pat` holds no `pat`. */
  lemma {:induction false} NoMatchInPrefix(s: string, pat: string, k: nat)
    requires |pat| > 0 && k <= |s| && NoMatchBefore(s, pat, k)
    ensures Absent(pat, s[..k])
  {
    forall i: nat | i < k + 1
      ensures !MatchAt(s[..k], pat, i)
    {
      if i + |pat| <= k {
        assert !MatchAt(s, pat, i);
        var j :| 0 <= j < |pat| && s[i + j] != pat[j];
        assert s[..k][i + j] == s[i + j];
      }
    }
  }

  /** No piece of a split contains the separator. */
  lemma {:induction false} SplitPiecesLackSep(s: string, sep: string)
    requires |sep| > 0
    ensures forall p :: p in Split(s, sep) ==> Absent(sep, p)
    decreases |s|
  {
    var parts := Split(s, sep);
    SplitHead(s, sep);
    var h := parts[0];
    NoMatchInPrefix(s, sep, |h|);
    if |parts| > 1 {
      SplitPiecesLackSep(s[|h| + |sep|..], sep);
      forall p | p in parts
        ensures Absent(sep, p)
      {
        if p != h {
          assert p in parts[1..];
        }
      }
    }
  }

  lemma {:induction false} JoinCons(a: string, rest: seq<string>, sep: string)
    requires |rest| >= 1
    ensures Join([a] + rest, sep) == a + sep + Join(rest, sep)
  {
    assert ([a] + rest)[1..] == rest;
  }

  /** Splitting and joining again with the same separator gives back the text. */
  lemma {:induction false} SplitJoin(s: string, sep: string)
    requires |sep| > 0
    ensures Join(Split(s, sep), sep) == s
    decreases |s|
  {
    FirstMatchIsFirst(s, sep);
    var k := FirstMatch(s, sep);
    if k < |s| {
      var after := s[k + |sep|..];
      SplitJoin(after, sep);
      SplitUnfold(s, sep);
      JoinCons(s[..k], Split(after, sep), sep);
      CutTwice(s, k, k + |sep|);
      MatchSlice(s, sep, k);
    }
  }

  // ---------------------------------------------------------------------------
  // Replace

  /** One step of `Replace` when `pat` occurs: the text before it, `to`, then the rest replaced. */
  lemma {:induction false} ReplaceUnfold(s: string, pat: string, to: string)
    requires |pat| > 0 && FirstMatch(s, pat) < |s|
    ensures var k := FirstMatch(s, pat); Replace(s, pat, to) == s[..k] + to + Replace(s[k + |pat|..], pat, to)
  {
  }

  /** Replacing is cutting at every occurrence of `pat` and gluing the pieces with `to`. */
  lemma {:induction false} ReplaceIsSplitJoin(s: string, pat: string, to: string)
    requires |pat| > 0
    ensures Replace(s, pat, to) == Join(Split(s, pat), to)
    decreases |s|
  {
    var k := FirstMatch(s, pat);
    if k < |s| {
      var after := s[k + |pat|..];
      ReplaceIsSplitJoin(after, pat, to);
      ReplaceUnfold(s, pat, to);
      SplitUnfold(s, pat);
      JoinCons(s[..k], Split(after, pat), to);
    }
  }

  /** A text in which `pat` does not occur is left as it is. */
  lemma {:induction false} ReplaceAbsent(s: string, pat: string, to: string)
    requires |pat| > 0 && Absent(pat, s)
    ensures Replace(s, pat, to) == s
  {
    FirstMatchNone(s, pat);
  }

  /** A leading character that cannot start `pat` does not change where `pat` first occurs. */
  lemma {:induction false} FirstMatchSkip(c: char, t: string, pat: string)
    requires |pat| > 0 && c != pat[0]
    ensures FirstMatch([c] + t, pat) == 1 + FirstMatch(t, pat)
  {
    var s := [c] + t;
    assert s[1..] == t;
    FirstMatchIsFirst(t, pat);
    var k := FirstMatch(t, pat);
    assert !MatchAt(s, pat, 0);
    NoMatchShift(s, pat, k);
    if k < |t| {
      ShiftMatch(s, pat, k);
      FirstMatchAt(s, pat, k + 1);
    } else {
      assert !MatchAt(s, pat, |s|);
      FirstMatchNone(s, pat);
    }
  }

  /** A leading character that cannot start `pat` is copied. */
  lemma {:induction false} ReplaceSkip(c: char, t: string, pat: string, to: string)
    requires |pat| > 0 && c != pat[0]
    ensures Replace([c] + t, pat, to) == [c] + Replace(t, pat, to)
  {
    var s := [c] + t;
    FirstMatchSkip(c, t, pat);
    var k := FirstMatch(t, pat);
    if k < |t| {
      var r := Replace(t[k + |pat|..], pat, to);
      ReplaceUnfold(s, pat, to);
      ReplaceUnfold(t, pat, to);
      assert s[..k + 1] == [c] + t[..k];
      assert s[k + 1 + |pat|..] == t[k + |pat|..];
      ConcatAssoc([c], t[..k], to, r);
    }
  }

  /** A leading occurrence of `pat` becomes `to`. */
  lemma {:induction false} ReplacePrefix(t: string, pat: string, to: string)
    requires |pat| > 0
    ensures Replace(pat + t, pat, to) == to + Replace(t, pat, to)
  {
    var s := pat + t;
    assert MatchAt(s, pat, 0);
    assert s[|pat|..] == t;
    assert s[..0] + to == to;
  }

  // ---------------------------------------------------------------------------
  // Separators whose first character a piece does not contain

  /** `c` does not occur in `s`. */
  ghost predicate NoChar(s: string, c: char)
  {
    forall i :: 0 <= i < |s| ==> s[i] != c
  }

  lemma {:induction false} NoCharNoMatch(s: string, rest: string, pat: string)
    requires |pat| > 0 && NoChar(s, pat[0])
    ensures NoMatchBefore(s + rest, pat, |s|)
  {
    forall i: nat | i < |s|
      ensures !MatchAt(s + rest, pat, i)
    {
      assert (s + rest)[i] == s[i];
    }
  }

  /** A word without the separator's first character is the first piece. */
  lemma {:induction false} SplitAfterWord(a: string, rest: string, sep: string)
    requires |sep| > 0 && NoChar(a, sep[0])
    ensures Split(a + sep + rest, sep) == [a] + Split(rest, sep)
  {
    var s := a + sep + rest;
    assert s == a + (sep + rest);
    NoCharNoMatch(a, sep + rest, sep);
    assert s[|a|..|a| + |sep|] == sep;
    SplitAt(s, sep, |a|);
    assert s[..|a|] == a && s[|a| + |sep|..] == rest;
  }

  /** Joining pieces without the character `c` with `[c]` and splitting again gives the pieces back. */
  lemma {:induction false} JoinSplitChar(parts: seq<string>, c: char)
    requires |parts| >= 1
    requires forall i :: 0 <= i < |parts| ==> NoChar(parts[i], c)
    ensures Split(Join(parts, [c]), [c]) == parts
  {
    if |parts| == 1 {
      NoCharNoMatch(parts[0], "", [c]);
      assert parts[0] + "" == parts[0];
      assert !MatchAt(parts[0], [c], |parts[0]|);
      SplitAbsent(parts[0], [c]);
    } else {
      JoinSplitChar(parts[1..], c);
      SplitAfterWord(parts[0], Join(parts[1..], [c]), [c]);
      assert parts == [parts[0]] + parts[1..];
    }
  }
}
