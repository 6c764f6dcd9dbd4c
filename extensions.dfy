/** The string extensions: the regular-expression code-block extractor and the
    language-to-extension table. */
module Extensions {
  import opened Strings
  import opened FileService

  // ---------------------------------------------------------------------------
  // ExtractCodeBlocks: the pattern ```(?:\w+)?\s*\n([\s\S]*?)\n```

  const Fence: string := "```"

  /** The text that ends a match: a line feed and a fence. */
  const CloseMark: string := "\n```"

  /** The class \w, on the ASCII range. */
  predicate IsWordChar(c: char)
  {
    ('a' <= c <= 'z') || ('A' <= c <= 'Z') || ('0' <= c <= '9') || c == '_'
  }

  predicate AllWord(t: string, lo: int, hi: int)
    requires 0 <= lo <= hi <= |t|
  {
    forall k :: lo <= k < hi ==> IsWordChar(t[k])
  }

  predicate AllSpace(t: string, lo: int, hi: int)
    requires 0 <= lo <= hi <= |t|
  {
    forall k :: lo <= k < hi ==> IsWhiteSpace(t[k])
  }

  /** One way the pattern matches `t`: the fence at `p`, the optional word tag from
      p+3 to `q`, white space from `q` to `n`, a line feed at `n`, group 1 from n+1 to
      `c`, and "\n```" at `c`. */
  predicate IsMatch(t: string, p: int, q: int, n: int, c: int)
  {
    0 <= p && p + 3 <= q <= n && n + 1 <= c && c + 4 <= |t|
    && OccursAt(t, Fence, p) && AllWord(t, p + 3, q) && AllSpace(t, q, n)
    && t[n] == '\n' && OccursAt(t, CloseMark, c)
  }

  /** The match the regular-expression engine reports first. It starts leftmost; the
      greedy tag then takes as much as still allows a match, and so does the greedy
      white space; the lazy group stops at the first "\n```" after it. */
  ghost predicate Preferred(t: string, p: int, q: int, n: int, c: int)
  {
    IsMatch(t, p, q, n, c)
    && (forall p', q', n', c' :: p' < p ==> !IsMatch(t, p', q', n', c'))
    && (forall q', n', c' :: q < q' ==> !IsMatch(t, p, q', n', c'))
    && (forall n', c' :: n < n' ==> !IsMatch(t, p, q, n', c'))
    && (forall c' :: n + 1 <= c' < c ==> !OccursAt(t, CloseMark, c'))
  }

  /** The engine's choice is unique. */
  lemma PreferredUnique(t: string, p: int, q: int, n: int, c: int, p': int, q': int, n': int, c': int)
    requires Preferred(t, p, q, n, c) && Preferred(t, p', q', n', c')
    ensures p == p' && q == q' && n == n' && c == c'
  {
    assert p < p' ==> !IsMatch(t, p, q, n, c);
    assert p' < p ==> !IsMatch(t, p', q', n', c');
    assert p == p';
    assert q < q' ==> !IsMatch(t, p, q', n', c');
    assert q' < q ==> !IsMatch(t, p, q, n, c);
    assert q == q';
    assert n < n' ==> !IsMatch(t, p, q, n', c');
    assert n' < n ==> !IsMatch(t, p, q, n, c);
    assert n == n';
    assert c < c' ==> !OccursAt(t, CloseMark, c);
    assert c' < c ==> !OccursAt(t, CloseMark, c');
  }

  datatype Found = Found(p: nat, q: nat, n: nat, c: nat)

  /** The end of the run of word characters starting at `i`. */
  function WordEnd(t: string, i: nat): (j: nat)
    requires i <= |t|
    ensures i <= j <= |t| && AllWord(t, i, j) && (j == |t| || !IsWordChar(t[j]))
    decreases |t| - i
  {
    if i < |t| && IsWordChar(t[i]) then WordEnd(t, i + 1) else i
  }

  /** The end of the run of white space starting at `i`. */
  function SpaceEnd(t: string, i: nat): (j: nat)
    requires i <= |t|
    ensures i <= j <= |t| && AllSpace(t, i, j) && (j == |t| || !IsWhiteSpace(t[j]))
    decreases |t| - i
  {
    if i < |t| && IsWhiteSpace(t[i]) then SpaceEnd(t, i + 1) else i
  }

  /** With the fence at `p` and the tag ending at `q`, the line feeds from `n` down to
      `q` in turn, each with the first "\n```" after it. */
  function TryLineFeed(t: string, p: nat, q: nat, n: nat): (r: Option<Found>)
    requires OccursAt(t, Fence, p) && p + 3 <= q <= n <= |t|
    requires AllWord(t, p + 3, q) && AllSpace(t, q, n)
    ensures r.Some? ==> r.value.p == p && r.value.q == q && r.value.n <= n
    ensures r.Some? ==> IsMatch(t, p, q, r.value.n, r.value.c)
    ensures r.Some? ==> forall c' :: r.value.n + 1 <= c' < r.value.c ==> !OccursAt(t, CloseMark, c')
    ensures r.Some? ==> forall n', c' :: r.value.n < n' <= n ==> !IsMatch(t, p, q, n', c')
    ensures r.None? ==> forall n', c' :: n' <= n ==> !IsMatch(t, p, q, n', c')
    decreases n
  {
    var c := if n < |t| && t[n] == '\n' then IndexOf(t, CloseMark, n + 1) else -1;
    if c != -1 then Some(Found(p, q, n, c))
    else if n == q then None
    else TryLineFeed(t, p, q, n - 1)
  }

  /** With the fence at `p`, the tag ends from `q` down to p+3 in turn. */
  function TryTag(t: string, p: nat, q: nat): (r: Option<Found>)
    requires OccursAt(t, Fence, p) && p + 3 <= q <= |t| && AllWord(t, p + 3, q)
    ensures r.Some? ==> r.value.p == p && r.value.q <= q
    ensures r.Some? ==> IsMatch(t, p, r.value.q, r.value.n, r.value.c)
    ensures r.Some? ==> forall c' :: r.value.n + 1 <= c' < r.value.c ==> !OccursAt(t, CloseMark, c')
    ensures r.Some? ==> forall n', c' :: r.value.n < n' ==> !IsMatch(t, p, r.value.q, n', c')
    ensures r.Some? ==> forall q', n', c' :: r.value.q < q' <= q ==> !IsMatch(t, p, q', n', c')
    ensures r.None? ==> forall q', n', c' :: q' <= q ==> !IsMatch(t, p, q', n', c')
    decreases q
  {
    var e := SpaceEnd(t, q);
    var found := TryLineFeed(t, p, q, e);
    assert forall n', c' :: e < n' ==> !IsMatch(t, p, q, n', c') by {
      forall n', c' | e < n' ensures !IsMatch(t, p, q, n', c') {
        assert n' <= |t| ==> !IsWhiteSpace(t[e]);
      }
    }
    if found.Some? then found
    else if q == p + 3 then None
    else TryTag(t, p, q - 1)
  }

  /** Start positions from `p` on, left to right. */
  function TryStart(t: string, p: nat): (r: Option<Found>)
    requires p <= |t|
    ensures r.Some? ==> p <= r.value.p
    ensures r.Some? ==> IsMatch(t, r.value.p, r.value.q, r.value.n, r.value.c)
    ensures r.Some? ==> forall c' :: r.value.n + 1 <= c' < r.value.c ==> !OccursAt(t, CloseMark, c')
    ensures r.Some? ==> forall n', c' :: r.value.n < n' ==> !IsMatch(t, r.value.p, r.value.q, n', c')
    ensures r.Some? ==> forall q', n', c' :: r.value.q < q' ==> !IsMatch(t, r.value.p, q', n', c')
    ensures r.Some? ==> forall p', q', n', c' :: p <= p' < r.value.p ==> !IsMatch(t, p', q', n', c')
    ensures r.None? ==> forall p', q', n', c' :: p <= p' ==> !IsMatch(t, p', q', n', c')
    decreases |t| - p
  {
    if p + 3 > |t| then None
    else
      var found := if OccursAt(t, Fence, p) then TryTag(t, p, WordEnd(t, p + 3)) else None;
      TagEndsAtWordEnd(t, p);
      if found.Some? then found else TryStart(t, p + 1)
  }

  /** The tag of a match at `p` cannot run past the word characters after the fence. */
  lemma TagEndsAtWordEnd(t: string, p: nat)
    requires p + 3 <= |t|
    ensures forall q', n', c' :: WordEnd(t, p + 3) < q' ==> !IsMatch(t, p, q', n', c')
  {
    forall q', n', c' | WordEnd(t, p + 3) < q' ensures !IsMatch(t, p, q', n', c') {
      assert q' <= |t| ==> !IsWordChar(t[WordEnd(t, p + 3)]);
    }
  }

  /** Extensions.ExtractCodeBlocks: group 1 of the first match, the whole text when
      nothing matches, and "" for empty input. */
  function ExtractCodeBlocks(text: string): (r: string)
    ensures text == "" ==> r == ""
    ensures (forall p, q, n, c :: !IsMatch(text, p, q, n, c)) ==> r == text
    ensures forall p, q, n, c :: Preferred(text, p, q, n, c) ==> r == text[n + 1..c]
  {
    if text == "" then ""
    else
      var found := TryStart(text, 0);
      assert forall p, q, n, c :: Preferred(text, p, q, n, c) ==> found.Some? && found.value == Found(p, q, n, c) by {
        forall p, q, n, c | Preferred(text, p, q, n, c)
          ensures found.Some? && found.value == Found(p, q, n, c)
        {
          var f := found.value;
          PreferredUnique(text, p, q, n, c, f.p, f.q, f.n, f.c);
        }
      }
      if found.None? then text else text[found.value.n + 1..found.value.c]
  }

  /** Whenever the pattern matches, the result is the group of the engine's preferred
      match, and since the group is lazy it never contains "\n```". */
  lemma ExtractedBlockHasNoCloseMark(text: string, p: int, q: int, n: int, c: int)
    requires IsMatch(text, p, q, n, c)
    ensures exists p', q', n', c' :: Preferred(text, p', q', n', c') && ExtractCodeBlocks(text) == text[n' + 1..c']
    ensures !Contains(ExtractCodeBlocks(text), CloseMark)
  {
    var found := TryStart(text, 0);
    assert found.Some?;
    var f := found.value;
    FirstMatchPreferred(text, f);
    PreferredIsExtracted(text, f);
    NotContainsSlice(text, CloseMark, f.n + 1, f.c);
  }

  lemma PreferredIsExtracted(text: string, f: Found)
    requires Preferred(text, f.p, f.q, f.n, f.c)
    ensures ExtractCodeBlocks(text) == text[f.n + 1..f.c]
  {
  }

  /** The match the left-to-right search finds first is the engine's choice. */
  lemma FirstMatchPreferred(text: string, f: Found)
    requires TryStart(text, 0) == Some(f)
    ensures Preferred(text, f.p, f.q, f.n, f.c)
  {
  }

  /** A block in the usual shape (a fence, an optional word tag, a line feed, the body
      and a line feed before the closing fence) gives back exactly its body, as long
      as the body starts with a visible character and holds no "\n```" of its own. */
  lemma ExtractCodeBlocksRoundTrip(tag: string, body: string)
    requires forall k :: 0 <= k < |tag| ==> IsWordChar(tag[k])
    requires body != "" && !IsWhiteSpace(body[0]) && !Contains(body, CloseMark)
    ensures ExtractCodeBlocks(Fence + tag + "\n" + body + "\n" + Fence) == body
  {
    var t := Fence + tag + "\n" + body + "\n" + Fence;
    var q := 3 + |tag|;
    var c := q + 1 + |body|;
    assert t[q] == '\n' && t[q + 1] == body[0];
    assert t[q + 1..c] == body;
    assert OccursAt(t, CloseMark, c) by {
      assert t[c..c + 4] == CloseMark;
    }
    assert OccursAt(t, Fence, 0) by {
      assert t[0..3] == Fence;
    }
    assert AllWord(t, 3, q) by {
      forall k | 3 <= k < q ensures IsWordChar(t[k]) {
        assert t[k] == tag[k - 3];
      }
    }
    assert IsMatch(t, 0, q, q, c);
    forall q', n', c' | q < q' ensures !IsMatch(t, 0, q', n', c') {
    }
    forall n', c' | q < n' ensures !IsMatch(t, 0, q, n', c') {
      assert !IsWhiteSpace(t[q + 1]) && t[q + 1] != '\n';
    }
    forall c' | q + 1 <= c' < c ensures !OccursAt(t, CloseMark, c') {
      if c' + 4 <= c {
        assert body[c' - q - 1..c' - q + 3] == t[c'..c' + 4];
        assert !OccursAt(body, CloseMark, c' - q - 1);
      } else {
        assert t[c] == '\n' && CloseMark[c - c'] == '`';
      }
    }
    assert Preferred(t, 0, q, q, c);
  }

  // ---------------------------------------------------------------------------
  // GetFileExtension

  /** Every extension the table can give. */
  const ProducedExtensions: set<string> :=
    {".cs", ".vb", ".js", ".ts", ".html", ".css", ".py", ".java", ".cpp", ".c", ".sql",
     ".xml", ".json", ".md", ".txt"}

  /** Extensions.GetFileExtension: the extension for a language name, matched after
      lower-casing; anything unknown gets ".txt". */
  function GetFileExtension(language: string): (ext: string)
    ensures ext in ProducedExtensions
  {
    match ToLower(language)
    case "csharp" => ".cs"
    case "visualbasic" => ".vb"
    case "javascript" => ".js"
    case "typescript" => ".ts"
    case "html" => ".html"
    case "css" => ".css"
    case "python" => ".py"
    case "java" => ".java"
    case "cpp" => ".cpp"
    case "c" => ".c"
    case "sql" => ".sql"
    case "xml" => ".xml"
    case "json" => ".json"
    case "markdown" => ".md"
    case _ => ".txt"
  }

  /** The case of the language name does not matter. */
  lemma GetFileExtensionIgnoresCase(language: string)
    ensures GetFileExtension(ToLower(language)) == GetFileExtension(language)
  {
    ToLowerIdempotent(language);
  }

  predicate IsLowerCase(s: string)
  {
    forall i :: 0 <= i < |s| ==> !('A' <= s[i] <= 'Z')
  }

  lemma LowerCaseUnchanged(s: string)
    requires IsLowerCase(s)
    ensures ToLower(s) == s
  {
  }

  /** Every tag the language table produces is lower case. */
  lemma LanguageTagsAreLowerCase(language: string)
    requires language in LanguageTags
    ensures ToLower(language) == language
  {
    assert IsLowerCase(language);
    LowerCaseUnchanged(language);
  }

  /** Round trip with the extension-to-language table: the nine extensions that have
      a language of their own come back unchanged, a header comes back as ".cpp", and
      every other extension comes back as ".txt". */
  lemma ExtensionRoundTrip(extension: string)
    ensures extension in KnownExtensions - {".h"} ==>
      GetFileExtension(DetermineLanguageFromExtension(extension)) == extension
    ensures GetFileExtension(DetermineLanguageFromExtension(".h")) == ".cpp"
    ensures extension !in KnownExtensions ==>
      GetFileExtension(DetermineLanguageFromExtension(extension)) == ".txt"
  {
    LanguageTagsAreLowerCase(DetermineLanguageFromExtension(extension));
    LanguageTagsAreLowerCase("cpp");
  }

  /** And the other way round: every tag of the language table survives the trip
      through an extension. */
  lemma LanguageRoundTrip(language: string)
    requires language in LanguageTags
    ensures DetermineLanguageFromExtension(GetFileExtension(language)) == language
  {
    LanguageTagsAreLowerCase(language);
  }
}
