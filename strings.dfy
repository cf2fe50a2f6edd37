/** The handful of Python string operations the search pipeline relies on:
    case mapping, substring search, `startswith`, `strip`, `split` on one
    character, `join`, and the ordering `sorted` uses on strings.  Case mapping
    and white space are the ASCII subsets of Python's Unicode rules. */
module Strings {

  // ---------------------------------------------------------------------------
  // Case mapping (ASCII letters only)
  // ---------------------------------------------------------------------------

  function UpperChar(c: char): char {
    if 'a' <= c <= 'z' then (c as int - 32) as char else c
  }

  function LowerChar(c: char): char {
    if 'A' <= c <= 'Z' then (c as int + 32) as char else c
  }

  function Upper(s: string): (r: string)
    ensures |r| == |s|
    ensures forall i :: 0 <= i < |s| ==> r[i] == UpperChar(s[i])
  {
    seq(|s|, i requires 0 <= i < |s| => UpperChar(s[i]))
  }

  function Lower(s: string): (r: string)
    ensures |r| == |s|
    ensures forall i :: 0 <= i < |s| ==> r[i] == LowerChar(s[i])
  {
    seq(|s|, i requires 0 <= i < |s| => LowerChar(s[i]))
  }

  lemma LowerSlice(s: string, a: nat, b: nat)
    requires a <= b <= |s|
    ensures Lower(s[a..b]) == Lower(s)[a..b]
  {
  }

  // ---------------------------------------------------------------------------
  // Substrings and prefixes
  // ---------------------------------------------------------------------------

  /** `needle` occurs in `hay` starting at position `i`. */
  predicate OccursAt(needle: string, hay: string, i: int) {
    0 <= i && i + |needle| <= |hay| && hay[i..i + |needle|] == needle
  }

  /** Python's `needle in hay` for strings. */
  predicate Contains(hay: string, needle: string) {
    exists i | 0 <= i <= |hay| - |needle| :: OccursAt(needle, hay, i)
  }

  /** Python's `s.startswith(prefix)`. */
  predicate StartsWith(s: string, prefix: string) {
    |prefix| <= |s| && s[..|prefix|] == prefix
  }

  /** A needle that occurs in `hay` occurs in any string that has `hay` inside it. */
  lemma ContainsInside(pre: string, hay: string, post: string, needle: string)
    requires Contains(hay, needle)
    ensures Contains(pre + hay + post, needle)
  {
    var i :| 0 <= i <= |hay| - |needle| && OccursAt(needle, hay, i);
    var whole := pre + hay + post;
    assert whole[|pre| + i..|pre| + i + |needle|] == hay[i..i + |needle|];
    assert OccursAt(needle, whole, |pre| + i);
  }

  /** A needle found in either part is found in the two joined by `sep`. */
  lemma ContainsEitherPart(a: string, sep: string, b: string, needle: string)
    requires Contains(a, needle) || Contains(b, needle)
    ensures Contains(a + sep + b, needle)
  {
    if Contains(a, needle) {
      ContainsInside("", a, sep + b, needle);
      assert "" + a + (sep + b) == a + sep + b;
    } else {
      ContainsInside(a + sep, b, "", needle);
      assert a + sep + b + "" == a + sep + b;
    }
  }

  /** A string never occurs inside a shorter one. */
  lemma NotContainsLonger(hay: string, needle: string)
    requires |needle| > |hay|
    ensures !Contains(hay, needle)
  {
  }

  lemma ContainsSelf(s: string)
    ensures Contains(s, s)
  {
    assert OccursAt(s, s, 0);
  }

  lemma StartsWithExtend(s: string, t: string, prefix: string)
    requires StartsWith(s, prefix)
    ensures StartsWith(s + t, prefix)
  {
    assert (s + t)[..|prefix|] == s[..|prefix|];
  }

  /** Dropping a first character that cannot start the needle keeps every occurrence. */
  lemma ContainsDropFirst(p: string, needle: string)
    requires |p| > 0 && |needle| > 0 && p[0] != needle[0]
    ensures Contains(p, needle) <==> Contains(p[1..], needle)
  {
    if Contains(p, needle) {
      var i :| 0 <= i <= |p| - |needle| && OccursAt(needle, p, i);
      assert i != 0 by { assert p[i..i + |needle|][0] == p[i]; }
      assert p[1..][i - 1..i - 1 + |needle|] == p[i..i + |needle|];
      assert OccursAt(needle, p[1..], i - 1);
    }
    if Contains(p[1..], needle) {
      ContainsInside(p[..1], p[1..], "", needle);
      assert p[..1] + p[1..] + "" == p;
    }
  }

  /** Dropping a last character that cannot end the needle keeps every occurrence. */
  lemma ContainsDropLast(p: string, needle: string)
    requires |p| > 0 && |needle| > 0 && p[|p| - 1] != needle[|needle| - 1]
    ensures Contains(p, needle) <==> Contains(p[..|p| - 1], needle)
  {
    if Contains(p, needle) {
      var i :| 0 <= i <= |p| - |needle| && OccursAt(needle, p, i);
      assert p[i + |needle| - 1] == needle[|needle| - 1] by {
        assert p[i..i + |needle|][|needle| - 1] == p[i + |needle| - 1];
      }
      assert p[..|p| - 1][i..i + |needle|] == p[i..i + |needle|];
      assert OccursAt(needle, p[..|p| - 1], i);
    }
    if Contains(p[..|p| - 1], needle) {
      ContainsInside("", p[..|p| - 1], p[|p| - 1..], needle);
      assert "" + p[..|p| - 1] + p[|p| - 1..] == p;
    }
  }

  // ---------------------------------------------------------------------------
  // White space and strip
  // ---------------------------------------------------------------------------

  /** The ASCII characters for which Python's `str.isspace` holds. */
  predicate IsSpace(c: char) {
    c == ' ' || c == '\t' || c == '\n' || c == '\r' || c == '\U{0B}' || c == '\U{0C}'
    || c == '\U{1C}' || c == '\U{1D}' || c == '\U{1E}' || c == '\U{1F}'
  }

  predicate NoSpace(s: string) {
    forall i :: 0 <= i < |s| ==> !IsSpace(s[i])
  }

  function TrimStart(s: string): string
    decreases |s|
  {
    if |s| > 0 && IsSpace(s[0]) then TrimStart(s[1..]) else s
  }

  function TrimEnd(s: string): string
    decreases |s|
  {
    if |s| > 0 && IsSpace(s[|s| - 1]) then TrimEnd(s[..|s| - 1]) else s
  }

  /** Python's `s.strip()`. */
  function Strip(s: string): string {
    TrimEnd(TrimStart(s))
  }

  lemma {:induction false} TrimStartEmpty(s: string)
    ensures TrimStart(s) == "" <==> forall i :: 0 <= i < |s| ==> IsSpace(s[i])
    decreases |s|
  {
    if |s| > 0 && IsSpace(s[0]) {
      TrimStartEmpty(s[1..]);
      assert forall i :: 1 <= i < |s| ==> s[i] == s[1..][i - 1];
    }
  }

  lemma {:induction false} TrimEndEmpty(s: string)
    ensures TrimEnd(s) == "" <==> forall i :: 0 <= i < |s| ==> IsSpace(s[i])
    decreases |s|
  {
    if |s| > 0 && IsSpace(s[|s| - 1]) {
      TrimEndEmpty(s[..|s| - 1]);
      assert forall i :: 0 <= i < |s| - 1 ==> s[i] == s[..|s| - 1][i];
    }
  }

  lemma {:induction false} TrimStartSuffix(s: string)
    ensures |TrimStart(s)| <= |s| && TrimStart(s) == s[|s| - |TrimStart(s)|..]
    ensures |TrimStart(s)| > 0 ==> !IsSpace(TrimStart(s)[0])
    decreases |s|
  {
    if |s| > 0 && IsSpace(s[0]) {
      TrimStartSuffix(s[1..]);
    }
  }

  lemma {:induction false} TrimEndPrefix(s: string)
    ensures |TrimEnd(s)| <= |s| && TrimEnd(s) == s[..|TrimEnd(s)|]
    decreases |s|
  {
    if |s| > 0 && IsSpace(s[|s| - 1]) {
      TrimEndPrefix(s[..|s| - 1]);
    }
  }

  /** `s.strip()` is a slice of `s`. */
  lemma StripIsSlice(s: string)
    ensures exists a, b :: 0 <= a <= b <= |s| && Strip(s) == s[a..b]
  {
    var t := TrimStart(s);
    TrimStartSuffix(s);
    TrimEndPrefix(t);
    var a := |s| - |t|;
    var m := |TrimEnd(t)|;
    assert Strip(s) == s[a..a + m];
  }

  /** `s.strip()` is empty exactly when `s` is made of white space only. */
  lemma StripEmpty(s: string)
    ensures Strip(s) == "" <==> forall i :: 0 <= i < |s| ==> IsSpace(s[i])
  {
    var t := TrimStart(s);
    TrimStartEmpty(s);
    TrimEndEmpty(t);
    TrimStartSuffix(s);
    // t starts with a non-space character unless it is empty
    assert (forall i :: 0 <= i < |t| ==> IsSpace(t[i])) <==> t == "";
  }

  lemma {:induction false} ContainsTrimStart(p: string, needle: string)
    requires |needle| > 0 && NoSpace(needle)
    ensures Contains(TrimStart(p), needle) <==> Contains(p, needle)
    decreases |p|
  {
    if |p| > 0 && IsSpace(p[0]) {
      ContainsDropFirst(p, needle);
      ContainsTrimStart(p[1..], needle);
    }
  }

  lemma {:induction false} ContainsTrimEnd(p: string, needle: string)
    requires |needle| > 0 && NoSpace(needle)
    ensures Contains(TrimEnd(p), needle) <==> Contains(p, needle)
    decreases |p|
  {
    if |p| > 0 && IsSpace(p[|p| - 1]) {
      ContainsDropLast(p, needle);
      ContainsTrimEnd(p[..|p| - 1], needle);
    }
  }

  /** Stripping white space never loses an occurrence of a needle without white space. */
  lemma ContainsStrip(p: string, needle: string)
    requires |needle| > 0 && NoSpace(needle)
    ensures Contains(Strip(p), needle) <==> Contains(p, needle)
  {
    ContainsTrimStart(p, needle);
    ContainsTrimEnd(TrimStart(p), needle);
  }

  lemma {:induction false} LowerTrimStart(s: string)
    ensures Lower(TrimStart(s)) == TrimStart(Lower(s))
    decreases |s|
  {
    if |s| > 0 {
      assert LowerChar(s[0]) == s[0] || !IsSpace(s[0]);
      assert Lower(s)[0] == LowerChar(s[0]);
      assert IsSpace(Lower(s)[0]) <==> IsSpace(s[0]);
      if IsSpace(s[0]) {
        LowerTrimStart(s[1..]);
        LowerSlice(s, 1, |s|);
        assert Lower(s[1..]) == Lower(s)[1..];
      }
    }
  }

  lemma {:induction false} LowerTrimEnd(s: string)
    ensures Lower(TrimEnd(s)) == TrimEnd(Lower(s))
    decreases |s|
  {
    if |s| > 0 {
      var n := |s| - 1;
      assert Lower(s)[n] == LowerChar(s[n]);
      assert IsSpace(Lower(s)[n]) <==> IsSpace(s[n]);
      if IsSpace(s[n]) {
        LowerTrimEnd(s[..n]);
        LowerSlice(s, 0, n);
        assert s[0..n] == s[..n];
      }
    }
  }

  /** `s.strip().lower()` and `s.lower().strip()` agree on ASCII text. */
  lemma LowerStrip(s: string)
    ensures Lower(Strip(s)) == Strip(Lower(s))
  {
    LowerTrimEnd(TrimStart(s));
    LowerTrimStart(s);
  }

  // ---------------------------------------------------------------------------
  // split and join
  // ---------------------------------------------------------------------------

  /** Python's `s.split(sep)` for a one-character separator: never an empty list. */
  function Split(s: string, sep: char): (r: seq<string>)
    ensures |r| >= 1
    decreases |s|
  {
    if |s| == 0 then [""]
    else
      var rest := Split(s[1..], sep);
      if s[0] == sep then [""] + rest else [[s[0]] + rest[0]] + rest[1..]
  }

  /** Python's `sep.join(parts)`. */
  function Join(parts: seq<string>, sep: string): string
    decreases |parts|
  {
    if |parts| == 0 then ""
    else if |parts| == 1 then parts[0]
    else parts[0] + sep + Join(parts[1..], sep)
  }

  /** The first part begins the joined string. */
  lemma {:induction false} JoinStartsWithFirst(parts: seq<string>, sep: string)
    requires |parts| > 0
    ensures StartsWith(Join(parts, sep), parts[0])
  {
    if |parts| > 1 {
      assert Join(parts, sep) == parts[0] + (sep + Join(parts[1..], sep));
    }
  }

  /** Every part occurs in the joined string. */
  lemma {:induction false} JoinContainsParts(parts: seq<string>, sep: string)
    ensures forall k :: 0 <= k < |parts| ==> Contains(Join(parts, sep), parts[k])
    decreases |parts|
  {
    forall k | 0 <= k < |parts|
      ensures Contains(Join(parts, sep), parts[k])
    {
      if |parts| == 1 || k == 0 {
        JoinStartsWithFirst(parts, sep);
        assert OccursAt(parts[0], Join(parts, sep), 0);
      } else {
        JoinContainsParts(parts[1..], sep);
        assert parts[1..][k - 1] == parts[k];
        ContainsInside(parts[0] + sep, Join(parts[1..], sep), "", parts[k]);
        assert parts[0] + sep + Join(parts[1..], sep) + "" == Join(parts, sep);
      }
    }
  }

  /** Joining the pieces of a split with the separator gives back the string. */
  lemma {:induction false} JoinSplit(s: string, sep: char)
    ensures Join(Split(s, sep), [sep]) == s
    decreases |s|
  {
    if |s| > 0 {
      var rest := Split(s[1..], sep);
      JoinSplit(s[1..], sep);
      if s[0] == sep {
        assert Split(s, sep) == [""] + rest;
        assert ([""] + rest)[1..] == rest;
      } else {
        var parts := [[s[0]] + rest[0]] + rest[1..];
        if |rest| > 1 {
          assert parts[1..] == rest[1..];
        }
      }
    }
  }

  /** No piece of a split holds the separator. */
  lemma {:induction false} SplitPiecesFree(s: string, sep: char)
    ensures forall k :: 0 <= k < |Split(s, sep)| ==> sep !in Split(s, sep)[k]
    decreases |s|
  {
    if |s| > 0 {
      SplitPiecesFree(s[1..], sep);
    }
  }

  /** Splitting commutes with lower-casing when the separator is not a letter. */
  lemma {:induction false} SplitLower(s: string, sep: char)
    requires !('A' <= sep <= 'Z') && !('a' <= sep <= 'z')
    ensures |Split(Lower(s), sep)| == |Split(s, sep)|
    ensures forall k :: 0 <= k < |Split(s, sep)| ==> Split(Lower(s), sep)[k] == Lower(Split(s, sep)[k])
    decreases |s|
  {
    if |s| > 0 {
      SplitLower(s[1..], sep);
      SplitLowerStep(s, sep);
    }
  }

  /** The step of `SplitLower`: from the split of the tail to that of `s`. */
  lemma SplitLowerStep(s: string, sep: char)
    requires |s| > 0 && !('A' <= sep <= 'Z') && !('a' <= sep <= 'z')
    requires |Split(Lower(s[1..]), sep)| == |Split(s[1..], sep)|
    requires forall k :: 0 <= k < |Split(s[1..], sep)| ==>
      Split(Lower(s[1..]), sep)[k] == Lower(Split(s[1..], sep)[k])
    ensures |Split(Lower(s), sep)| == |Split(s, sep)|
    ensures forall k :: 0 <= k < |Split(s, sep)| ==> Split(Lower(s), sep)[k] == Lower(Split(s, sep)[k])
  {
    var low := Lower(s);
    assert low[1..] == Lower(s[1..]) && low[0] == LowerChar(s[0]) by {
      LowerCons(s);
    }
    if s[0] == sep {
      SplitLowerAtSep(s, low, sep);
    } else {
      SplitLowerInPiece(s, low, sep);
    }
  }

  lemma SplitLowerAtSep(s: string, low: string, sep: char)
    requires |s| > 0 && s[0] == sep && |low| == |s| && low[0] == sep
    requires |Split(low[1..], sep)| == |Split(s[1..], sep)|
    requires forall k :: 0 <= k < |Split(s[1..], sep)| ==>
      Split(low[1..], sep)[k] == Lower(Split(s[1..], sep)[k])
    ensures |Split(low, sep)| == |Split(s, sep)|
    ensures forall k :: 0 <= k < |Split(s, sep)| ==> Split(low, sep)[k] == Lower(Split(s, sep)[k])
  {
    var rest := Split(s[1..], sep);
    var lowRest := Split(low[1..], sep);
    var pieces := Split(s, sep);
    var lowPieces := Split(low, sep);
    assert lowPieces == [""] + lowRest;
    assert pieces == [""] + rest;
    forall k | 0 <= k < |pieces|
      ensures lowPieces[k] == Lower(pieces[k])
    {
      if k > 0 {
        assert lowPieces[k] == lowRest[k - 1] && pieces[k] == rest[k - 1];
      }
    }
  }

  lemma SplitLowerInPiece(s: string, low: string, sep: char)
    requires |s| > 0 && s[0] != sep && |low| == |s| && low[0] == LowerChar(s[0]) && low[0] != sep
    requires |Split(low[1..], sep)| == |Split(s[1..], sep)|
    requires forall k :: 0 <= k < |Split(s[1..], sep)| ==>
      Split(low[1..], sep)[k] == Lower(Split(s[1..], sep)[k])
    ensures |Split(low, sep)| == |Split(s, sep)|
    ensures forall k :: 0 <= k < |Split(s, sep)| ==> Split(low, sep)[k] == Lower(Split(s, sep)[k])
  {
    var rest := Split(s[1..], sep);
    var lowRest := Split(low[1..], sep);
    var pieces := Split(s, sep);
    var lowPieces := Split(low, sep);
    var first := [s[0]] + rest[0];
    assert first[1..] == rest[0];
    LowerCons(first);
    assert lowPieces == [[low[0]] + lowRest[0]] + lowRest[1..];
    assert pieces == [first] + rest[1..];
    forall k | 0 <= k < |pieces|
      ensures lowPieces[k] == Lower(pieces[k])
    {
      if k > 0 {
        assert lowPieces[k] == lowRest[k] && pieces[k] == rest[k];
      }
    }
  }

  /** Lower-casing works character by character from the front. */
  lemma LowerCons(s: string)
    requires |s| > 0
    ensures Lower(s) == [LowerChar(s[0])] + Lower(s[1..])
  {
  }

  lemma {:induction false} PrefixInFirstPiece(s: string, needle: string, sep: char)
    requires StartsWith(s, needle) && sep !in needle
    ensures StartsWith(Split(s, sep)[0], needle)
    decreases |s|
  {
    if |needle| > 0 {
      assert s[0] == needle[0];
      assert needle[1..] == s[1..][..|needle| - 1];
      PrefixInFirstPiece(s[1..], needle[1..], sep);
      var rest := Split(s[1..], sep);
      assert Split(s, sep)[0] == [s[0]] + rest[0];
      assert needle == [needle[0]] + needle[1..];
    }
  }

  /** A needle without the separator that occurs in `s` occurs inside one of its pieces. */
  lemma {:induction false} ContainsSomePiece(s: string, needle: string, sep: char)
    requires Contains(s, needle) && sep !in needle
    ensures exists k :: 0 <= k < |Split(s, sep)| && Contains(Split(s, sep)[k], needle)
    decreases |s|
  {
    var pieces := Split(s, sep);
    if |needle| == 0 {
      assert OccursAt(needle, pieces[0], 0);
    } else {
      var i :| 0 <= i <= |s| - |needle| && OccursAt(needle, s, i);
      if i == 0 {
        PrefixInFirstPiece(s, needle, sep);
        assert OccursAt(needle, pieces[0], 0);
      } else {
        assert s[1..][i - 1..i - 1 + |needle|] == s[i..i + |needle|];
        assert OccursAt(needle, s[1..], i - 1);
        ContainsSomePiece(s[1..], needle, sep);
        var rest := Split(s[1..], sep);
        var k :| 0 <= k < |rest| && Contains(rest[k], needle);
        if s[0] == sep {
          assert pieces[k + 1] == rest[k];
        } else if k == 0 {
          ContainsInside([s[0]], rest[0], "", needle);
          assert [s[0]] + rest[0] + "" == pieces[0];
        } else {
          assert pieces[k] == rest[k];
        }
      }
    }
  }

  /** Every piece of a split is a slice of the whole string. */
  lemma {:induction false} PieceIsSlice(s: string, sep: char, k: nat)
    requires k < |Split(s, sep)|
    ensures exists a :: OccursAt(Split(s, sep)[k], s, a)
    decreases |s|
  {
    var pieces := Split(s, sep);
    if |s| == 0 {
      assert OccursAt(pieces[k], s, 0);
    } else {
      var rest := Split(s[1..], sep);
      if s[0] == sep && k == 0 {
        assert OccursAt(pieces[k], s, 0);
      } else if k == 0 {
        PieceIsPrefix(s[1..], sep);
        assert pieces[0] == [s[0]] + rest[0];
        assert s[0..|pieces[0]|] == pieces[0];
        assert OccursAt(pieces[k], s, 0);
      } else {
        var k' := if s[0] == sep then k - 1 else k;
        assert pieces[k] == rest[k'];
        PieceIsSlice(s[1..], sep, k');
        var a :| OccursAt(rest[k'], s[1..], a);
        assert s[a + 1..a + 1 + |rest[k']|] == s[1..][a..a + |rest[k']|];
        assert OccursAt(pieces[k], s, a + 1);
      }
    }
  }

  /** Every piece of a split is a substring of the whole string. */
  lemma PieceInside(s: string, sep: char, k: nat, needle: string)
    requires k < |Split(s, sep)| && Contains(Split(s, sep)[k], needle)
    ensures Contains(s, needle)
  {
    var piece := Split(s, sep)[k];
    PieceIsSlice(s, sep, k);
    var a :| OccursAt(piece, s, a);
    assert s[a..a + |piece|] == piece;
    ContainsInside(s[..a], piece, s[a + |piece|..], needle);
    assert s[..a] + piece + s[a + |piece|..] == s;
  }

  /** The first piece of a split is a prefix of the string. */
  lemma {:induction false} PieceIsPrefix(s: string, sep: char)
    ensures StartsWith(s, Split(s, sep)[0])
    decreases |s|
  {
    if |s| > 0 {
      PieceIsPrefix(s[1..], sep);
    }
  }

  // ---------------------------------------------------------------------------
  // The order Python's `sorted` uses on strings
  // ---------------------------------------------------------------------------

  /** Lexicographic order by code point; a proper prefix comes first. */
  predicate LexLess(a: string, b: string)
    decreases |a|
  {
    if |a| == 0 then |b| > 0
    else if |b| == 0 then false
    else a[0] < b[0] || (a[0] == b[0] && LexLess(a[1..], b[1..]))
  }

  lemma {:induction false} LexLessIrreflexive(a: string)
    ensures !LexLess(a, a)
    decreases |a|
  {
    if |a| > 0 {
      LexLessIrreflexive(a[1..]);
    }
  }

  lemma {:induction false} LexLessTransitive(a: string, b: string, c: string)
    requires LexLess(a, b) && LexLess(b, c)
    ensures LexLess(a, c)
    decreases |a|
  {
    if |a| > 0 && a[0] == b[0] && b[0] == c[0] {
      LexLessTransitive(a[1..], b[1..], c[1..]);
    }
  }

  lemma {:induction false} LexLessTotal(a: string, b: string)
    requires a != b
    ensures LexLess(a, b) || LexLess(b, a)
    decreases |a|
  {
    if |a| > 0 && |b| > 0 && a[0] == b[0] {
      LexLessTotal(a[1..], b[1..]);
    }
  }
}
