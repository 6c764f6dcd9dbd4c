/** Text primitives of the .NET string API that the assistant relies on, stated
    over `string`: a sequence of Unicode scalar values. A .NET string is a sequence of
    UTF-16 code units instead, so for text outside the Basic Multilingual Plane the
    two lengths differ. Searches are ordinal; lower-casing covers ASCII letters only. */
module Strings {

  datatype Option<+T> = None | Some(value: T)

  /** The line terminator written by StringBuilder.AppendLine and string.Join in the
      source (Environment.NewLine on Windows). */
  const NewLine: string := "\r\n"

  /** Char.IsWhiteSpace, which is also the set matched by the regular-expression class
      \s: the separators of Unicode categories Zs, Zl and Zp, the controls U+0009 to
      U+000D, and U+0085. */
  predicate IsWhiteSpace(c: char)
  {
    ('\t' <= c <= '\r') || c == ' ' || c == '\U{0085}' || c == '\U{00A0}' || c == '\U{1680}'
    || ('\U{2000}' <= c <= '\U{200A}') || c == '\U{2028}' || c == '\U{2029}'
    || c == '\U{202F}' || c == '\U{205F}' || c == '\U{3000}'
  }

  predicate IsLineBreak(c: char)
  {
    c == '\r' || c == '\n'
  }

  predicate NoLineBreak(s: string)
  {
    forall i :: 0 <= i < |s| ==> !IsLineBreak(s[i])
  }

  /** `pat` occurs in `s` starting at index `i`. */
  predicate OccursAt(s: string, pat: string, i: int)
  {
    0 <= i && i + |pat| <= |s| && s[i..i + |pat|] == pat
  }

  /** string.Contains (ordinal). */
  predicate Contains(s: string, pat: string)
  {
    exists i | 0 <= i <= |s| - |pat| :: OccursAt(s, pat, i)
  }

  /** string.StartsWith, taken as ordinal. */
  predicate StartsWith(s: string, prefix: string)
  {
    |prefix| <= |s| && s[..|prefix|] == prefix
  }

  predicate EndsWith(s: string, suffix: string)
  {
    |suffix| <= |s| && s[|s| - |suffix|..] == suffix
  }

  /** string.IndexOf(pat, from): the first occurrence at or after `from`, or -1. */
  function IndexOf(s: string, pat: string, from: nat): (r: int)
    requires from <= |s|
    ensures r == -1 || (from <= r && OccursAt(s, pat, r))
    ensures forall i :: from <= i && (r == -1 || i < r) ==> !OccursAt(s, pat, i)
    decreases |s| - from
  {
    if from + |pat| > |s| then -1
    else if OccursAt(s, pat, from) then from
    else IndexOf(s, pat, from + 1)
  }

  lemma OccursAtWitness(s: string, pat: string, i: int)
    requires OccursAt(s, pat, i)
    ensures Contains(s, pat)
  {
  }

  /** Containing a one-character text is containing that character. */
  lemma ContainsChar(s: string, c: char)
    ensures Contains(s, [c]) <==> c in s
  {
    if c in s {
      var i :| 0 <= i < |s| && s[i] == c;
      assert OccursAt(s, [c], i);
    }
    if Contains(s, [c]) {
      var i :| 0 <= i <= |s| - 1 && OccursAt(s, [c], i);
      assert s[i] == s[i..i + 1][0];
    }
  }

  /** Contains and IndexOf agree: the pattern occurs somewhere exactly when IndexOf
      from the start finds it. */
  lemma ContainsIffFound(s: string, pat: string)
    ensures Contains(s, pat) <==> IndexOf(s, pat, 0) != -1
  {
    var r := IndexOf(s, pat, 0);
    if r != -1 {
      OccursAtWitness(s, pat, r);
    }
  }

  /** An occurrence inside a slice is an occurrence in the whole string. */
  lemma OccursInSlice(s: string, pat: string, lo: int, hi: int, i: int)
    requires 0 <= lo <= hi <= |s|
    ensures OccursAt(s[lo..hi], pat, i) ==> OccursAt(s, pat, lo + i) && lo + i + |pat| <= hi
  {
    var slice := s[lo..hi];
    if OccursAt(slice, pat, i) {
      forall k | 0 <= k < |pat|
        ensures s[lo + i..lo + i + |pat|][k] == pat[k]
      {
        assert pat[k] == slice[i..i + |pat|][k] == slice[i + k];
      }
    }
  }

  /** A slice holds no occurrence that the whole string does not hold within it. */
  lemma NotContainsSlice(s: string, pat: string, lo: int, hi: int)
    requires 0 <= lo <= hi <= |s|
    requires forall i :: lo <= i && i + |pat| <= hi ==> !OccursAt(s, pat, i)
    ensures !Contains(s[lo..hi], pat)
  {
    forall i | 0 <= i <= (hi - lo) - |pat|
      ensures !OccursAt(s[lo..hi], pat, i)
    {
      OccursInSlice(s, pat, lo, hi, i);
    }
  }

  /** `i` is the first occurrence of `pat` at or after `from`. */
  predicate FirstAt(s: string, pat: string, from: int, i: int)
  {
    from <= i && OccursAt(s, pat, i) && forall j :: from <= j < i ==> !OccursAt(s, pat, j)
  }

  /** IndexOf finds exactly the first occurrence... */
  lemma IndexOfFinds(s: string, pat: string, from: nat, i: int)
    requires from <= |s| && FirstAt(s, pat, from, i)
    ensures IndexOf(s, pat, from) == i
  {
  }

  /** ...and gives -1 exactly when there is none. */
  lemma IndexOfMissing(s: string, pat: string, from: nat)
    requires from <= |s|
    requires forall j :: from <= j ==> !OccursAt(s, pat, j)
    ensures IndexOf(s, pat, from) == -1
  {
  }

  /** A one-character pattern occurs exactly where that character is. */
  lemma OccursAtChar(s: string, c: char)
    ensures forall i :: OccursAt(s, [c], i) <==> 0 <= i < |s| && s[i] == c
  {
    forall i | 0 <= i < |s|
      ensures OccursAt(s, [c], i) <==> s[i] == c
    {
      assert s[i..i + 1] == [s[i]];
    }
  }

  /** An occurrence stays where it is when text is appended... */
  lemma OccursInPrefix(a: string, b: string, pat: string, i: int)
    requires OccursAt(a, pat, i)
    ensures OccursAt(a + b, pat, i)
  {
    assert (a + b)[i..i + |pat|] == a[i..i + |pat|];
  }

  /** ...and moves by the length of what is prepended. */
  lemma OccursInSuffix(a: string, b: string, pat: string, i: int)
    requires OccursAt(b, pat, i)
    ensures OccursAt(a + b, pat, |a| + i)
  {
    assert (a + b)[|a| + i..|a| + i + |pat|] == b[i..i + |pat|];
  }

  /** String.TrimStart(): drops the leading white space. */
  function TrimStart(s: string): (r: string)
    ensures |r| <= |s| && r == s[|s| - |r|..]
    ensures r == [] || !IsWhiteSpace(r[0])
    ensures forall i :: 0 <= i < |s| - |r| ==> IsWhiteSpace(s[i])
  {
    if s != [] && IsWhiteSpace(s[0]) then TrimStart(s[1..]) else s
  }

  /** String.TrimEnd(): drops the trailing white space. */
  function TrimEnd(s: string): (r: string)
    ensures |r| <= |s| && r == s[..|r|]
    ensures r == [] || !IsWhiteSpace(r[|r| - 1])
    ensures forall i :: |r| <= i < |s| ==> IsWhiteSpace(s[i])
  {
    if s != [] && IsWhiteSpace(s[|s| - 1]) then TrimEnd(s[..|s| - 1]) else s
  }

  /** String.Trim(): a slice of the input with no white space at either end. */
  function Trim(s: string): (r: string)
    ensures exists lo, hi :: 0 <= lo <= hi <= |s| && r == s[lo..hi]
    ensures r == [] || (!IsWhiteSpace(r[0]) && !IsWhiteSpace(r[|r| - 1]))
  {
    var t := TrimStart(s);
    var r := TrimEnd(t);
    assert r == s[|s| - |t|..|s| - |t| + |r|];
    r
  }

  /** A mark that starts and ends with non-white characters begins the trimmed text
      exactly when it follows nothing but white space. */
  lemma TrimStartsWithMark(s: string, mark: string)
    requires mark != [] && !IsWhiteSpace(mark[0]) && !IsWhiteSpace(mark[|mark| - 1])
    ensures StartsWith(Trim(s), mark)
      <==> exists i :: 0 <= i <= |s| - |mark| && AllWhiteSpace(s[..i]) && OccursAt(s, mark, i)
  {
    if StartsWith(Trim(s), mark) {
      MarkAfterSpace(s, mark);
    }
    if exists i :: 0 <= i <= |s| - |mark| && AllWhiteSpace(s[..i]) && OccursAt(s, mark, i) {
      var i :| 0 <= i <= |s| - |mark| && AllWhiteSpace(s[..i]) && OccursAt(s, mark, i);
      MarkStartsTrim(s, mark, i);
    }
  }

  lemma MarkAfterSpace(s: string, mark: string)
    requires StartsWith(Trim(s), mark)
    ensures exists i :: 0 <= i <= |s| - |mark| && AllWhiteSpace(s[..i]) && OccursAt(s, mark, i)
  {
    var t := TrimStart(s);
    var a := |s| - |t|;
    var r := TrimEnd(t);
    assert t == s[a..] && r == t[..|r|];
    assert s[a..a + |mark|] == mark;
    assert OccursAt(s, mark, a) && AllWhiteSpace(s[..a]);
  }

  lemma MarkStartsTrim(s: string, mark: string, i: int)
    requires mark != [] && !IsWhiteSpace(mark[0]) && !IsWhiteSpace(mark[|mark| - 1])
    requires 0 <= i <= |s| - |mark| && AllWhiteSpace(s[..i]) && OccursAt(s, mark, i)
    ensures StartsWith(Trim(s), mark)
  {
    var t := TrimStart(s);
    var a := |s| - |t|;
    var r := TrimEnd(t);
    assert t == s[a..] && r == t[..|r|];
    assert s[i] == mark[0];
    assert forall j :: 0 <= j < i ==> IsWhiteSpace(s[..i][j]);
    assert a == i;
    assert t[..|mark|] == mark;
    assert !IsWhiteSpace(t[|mark| - 1]);
  }

  /** Trimming cannot create an occurrence. */
  lemma TrimNotContains(s: string, pat: string)
    requires !Contains(s, pat)
    ensures !Contains(Trim(s), pat)
  {
    var lo, hi :| 0 <= lo <= hi <= |s| && Trim(s) == s[lo..hi];
    NotContainsSlice(s, pat, lo, hi);
  }

  /** Trimming text that starts and ends with non-white characters changes nothing. */
  lemma TrimOfTrimmed(s: string)
    requires s == [] || (!IsWhiteSpace(s[0]) && !IsWhiteSpace(s[|s| - 1]))
    ensures Trim(s) == s
  {
  }

  /** A character that is not white space survives trimming: a trimmed text that had
      one still has it, at the same offset from the start of the kept slice. */
  lemma TrimKeepsInner(s: string, i: int)
    requires 0 <= i < |s| && !IsWhiteSpace(s[i])
    ensures Trim(s) != []
  {
    var t := TrimStart(s);
    assert |s| - |t| <= i;
    assert t[i - (|s| - |t|)] == s[i];
    var r := TrimEnd(t);
    assert i - (|s| - |t|) < |r|;
  }

  predicate AllWhiteSpace(w: string)
  {
    forall i :: 0 <= i < |w| ==> IsWhiteSpace(w[i])
  }

  lemma {:induction false} TrimEndAppendSpace(s: string, w: string)
    requires AllWhiteSpace(w)
    ensures TrimEnd(s + w) == TrimEnd(s)
    decreases |w|
  {
    if w != [] {
      var x := s + w;
      assert x[|x| - 1] == w[|w| - 1];
      assert x[..|x| - 1] == s + w[..|w| - 1];
      TrimEndAppendSpace(s, w[..|w| - 1]);
    } else {
      assert s + w == s;
    }
  }

  lemma {:induction false} TrimStartAppendSpace(s: string, w: string)
    requires AllWhiteSpace(w)
    ensures TrimStart(s + w) == TrimStart(s) + w || (TrimStart(s + w) == [] && TrimStart(s) == [])
    decreases |s| + |w|
  {
    if s == [] {
      assert s + w == w;
      if w != [] {
        assert w[1..] == [] + w[1..];
        TrimStartAppendSpace([], w[1..]);
      }
    } else {
      assert (s + w)[0] == s[0];
      assert (s + w)[1..] == s[1..] + w;
      if IsWhiteSpace(s[0]) {
        TrimStartAppendSpace(s[1..], w);
      }
    }
  }

  /** Trailing white space does not survive Trim: the carriage return and line feed
      that end a line in a fenced block make no difference. */
  lemma TrimAppendSpace(s: string, w: string)
    requires AllWhiteSpace(w)
    ensures Trim(s + w) == Trim(s)
  {
    TrimStartAppendSpace(s, w);
    if TrimStart(s + w) == TrimStart(s) + w {
      TrimEndAppendSpace(TrimStart(s), w);
    }
  }

  /** ASCII lower-casing of one character (String.ToLower on the ASCII range). */
  function LowerChar(c: char): char
  {
    if 'A' <= c <= 'Z' then (c as int + 32) as char else c
  }

  function ToLower(s: string): (r: string)
    ensures |r| == |s|
  {
    seq(|s|, i requires 0 <= i < |s| => LowerChar(s[i]))
  }

  lemma LowerCharIdempotent(c: char)
    ensures LowerChar(LowerChar(c)) == LowerChar(c)
  {
  }

  /** Lower-casing twice is lower-casing once. */
  lemma ToLowerIdempotent(s: string)
    ensures ToLower(ToLower(s)) == ToLower(s)
  {
    forall i | 0 <= i < |s|
      ensures ToLower(ToLower(s))[i] == ToLower(s)[i]
    {
      LowerCharIdempotent(s[i]);
    }
  }

  /** Lower-casing works character by character, so it distributes over
      concatenation and commutes with slicing. */
  lemma ToLowerConcat(a: string, b: string)
    ensures ToLower(a + b) == ToLower(a) + ToLower(b)
  {
    assert forall i | 0 <= i < |a| + |b| :: ToLower(a + b)[i] == (ToLower(a) + ToLower(b))[i];
  }

  lemma ToLowerSlice(s: string, lo: int, hi: int)
    requires 0 <= lo <= hi <= |s|
    ensures ToLower(s)[lo..hi] == ToLower(s[lo..hi])
  {
  }

  /** string.Join(sep, parts). */
  function Join(parts: seq<string>, sep: string): string
  {
    if |parts| == 0 then ""
    else if |parts| == 1 then parts[0]
    else parts[0] + sep + Join(parts[1..], sep)
  }

  /** The scanner of String.Split(new[] { '\r', '\n' }, RemoveEmptyEntries), with `cur` the
      part of the current entry read so far. */
  function SplitFrom(s: string, cur: string): (r: seq<string>)
    requires NoLineBreak(cur)
    ensures forall k :: 0 <= k < |r| ==> r[k] != "" && NoLineBreak(r[k])
    decreases |s|
  {
    if s == [] then (if cur == "" then [] else [cur])
    else if IsLineBreak(s[0]) then (if cur == "" then [] else [cur]) + SplitFrom(s[1..], "")
    else SplitFrom(s[1..], cur + [s[0]])
  }

  /** String.Split on CR and LF with empty entries removed: every entry is non-empty and
      holds no line break. */
  function SplitLines(s: string): (lines: seq<string>)
    ensures forall k :: 0 <= k < |lines| ==> lines[k] != "" && NoLineBreak(lines[k])
  {
    SplitFrom(s, "")
  }

  function Concat(parts: seq<string>): string
  {
    if parts == [] then "" else parts[0] + Concat(parts[1..])
  }

  /** The characters of `s` that are not line breaks, in order. */
  function DropLineBreaks(s: string): (r: string)
    ensures NoLineBreak(r)
  {
    if s == [] then ""
    else if IsLineBreak(s[0]) then DropLineBreaks(s[1..])
    else [s[0]] + DropLineBreaks(s[1..])
  }

  lemma ConcatAppend(a: seq<string>, b: seq<string>)
    ensures Concat(a + b) == Concat(a) + Concat(b)
  {
    if a == [] {
      assert a + b == b;
    } else {
      assert (a + b)[1..] == a[1..] + b;
      ConcatAppend(a[1..], b);
    }
  }

  lemma {:induction false} SplitFromKeepsText(s: string, cur: string)
    requires NoLineBreak(cur)
    ensures Concat(SplitFrom(s, cur)) == cur + DropLineBreaks(s)
    decreases |s|
  {
    if s == [] {
    } else if IsLineBreak(s[0]) {
      var head: seq<string> := if cur == "" then [] else [cur];
      assert Concat(head) == cur;
      assert SplitFrom(s, cur) == head + SplitFrom(s[1..], "");
      ConcatAppend(head, SplitFrom(s[1..], ""));
      SplitFromKeepsText(s[1..], "");
      assert DropLineBreaks(s) == DropLineBreaks(s[1..]);
    } else {
      assert SplitFrom(s, cur) == SplitFrom(s[1..], cur + [s[0]]);
      SplitFromKeepsText(s[1..], cur + [s[0]]);
      assert DropLineBreaks(s) == [s[0]] + DropLineBreaks(s[1..]);
      assert cur + [s[0]] + DropLineBreaks(s[1..]) == cur + DropLineBreaks(s);
    }
  }

  /** Splitting loses nothing but the line breaks: the entries, put back together, are
      the input with its CR and LF characters removed. */
  lemma SplitLinesKeepsText(s: string)
    ensures Concat(SplitLines(s)) == DropLineBreaks(s)
  {
    SplitFromKeepsText(s, "");
  }

  lemma {:induction false} SplitFromWord(w: string, rest: string, cur: string)
    requires NoLineBreak(cur) && NoLineBreak(w)
    ensures NoLineBreak(cur + w)
    ensures SplitFrom(w + rest, cur) == SplitFrom(rest, cur + w)
    decreases |w|
  {
    if w == [] {
      assert w + rest == rest && cur + w == cur;
    } else {
      assert (w + rest)[0] == w[0];
      assert (w + rest)[1..] == w[1..] + rest;
      assert cur + [w[0]] + w[1..] == cur + w;
      SplitFromWord(w[1..], rest, cur + [w[0]]);
    }
  }

  /** Round trip: lines that are non-empty and free of line breaks, joined with
      NewLine, split back into exactly those lines. */
  lemma {:induction false} SplitJoinRoundTrip(lines: seq<string>)
    requires forall k :: 0 <= k < |lines| ==> lines[k] != "" && NoLineBreak(lines[k])
    ensures SplitLines(Join(lines, NewLine)) == lines
  {
    if |lines| == 1 {
      SplitFromWord(lines[0], "", "");
      assert lines[0] + "" == lines[0];
    } else if |lines| > 1 {
      var rest := Join(lines[1..], NewLine);
      assert Join(lines, NewLine) == lines[0] + (NewLine + rest);
      SplitFromWord(lines[0], NewLine + rest, "");
      assert "" + lines[0] == lines[0];
      assert (NewLine + rest)[1..] == "\n" + rest;
      assert ("\n" + rest)[1..] == rest;
      SplitJoinRoundTrip(lines[1..]);
      assert [lines[0]] + lines[1..] == lines;
    }
  }

  /** A line break ends the current entry: what follows is split on its own. */
  lemma {:induction false} SplitFromAtBreak(a: string, c: char, rest: string, cur: string)
    requires NoLineBreak(cur) && IsLineBreak(c)
    ensures SplitFrom(a + [c] + rest, cur) == SplitFrom(a, cur) + SplitFrom(rest, "")
    decreases |a|
  {
    if a == [] {
      assert a + [c] + rest == [c] + rest;
      assert ([c] + rest)[1..] == rest;
    } else {
      assert (a + [c] + rest)[0] == a[0];
      assert (a + [c] + rest)[1..] == a[1..] + [c] + rest;
      if IsLineBreak(a[0]) {
        SplitFromAtBreak(a[1..], c, rest, "");
      } else {
        SplitFromAtBreak(a[1..], c, rest, cur + [a[0]]);
      }
    }
  }

  /** A non-empty text without line breaks is a single entry. */
  lemma SplitSingleLine(w: string)
    requires NoLineBreak(w)
    ensures SplitLines(w) == if w == "" then [] else [w]
  {
    SplitFromWord(w, "", "");
    assert w + "" == w;
    assert "" + w == w;
  }
}
