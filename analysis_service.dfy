/** The analysis service: the reports for the active document and for the whole
    solution, fix generation, applying a fix to the editor, and the two text helpers
    behind them (pulling the code out of a fenced reply, and telling binary or
    oversized files apart). */
module AnalysisService {
  import opened Strings
  import opened PromptBuilder
  import opened FileService
  import opened LlmService

  // ---------------------------------------------------------------------------
  // ExtractCodeBlock

  /** The code of a reply: the trimmed text between the line after the first fence
      and the next fence. The text comes back unchanged when it has no fence, when
      no line break follows the first fence, when no fence follows that line break,
      and when the block between them is empty. */
  function ExtractCodeBlock(text: string): (r: string)
    ensures !Contains(text, Fence) ==> r == text
    ensures r == text || !Contains(r, Fence)
  {
    if text == "" || !Contains(text, Fence) then text
    else
      ContainsIffFound(text, Fence);
      var open := IndexOf(text, Fence, 0);
      var start := IndexOf(text, "\n", open) + 1;
      var end := IndexOf(text, Fence, start);
      if start > 0 && end > start then
        NotContainsSlice(text, Fence, start, end);
        TrimNotContains(text[start..end], Fence);
        Trim(text[start..end])
      else text
  }

  /** Extraction is idempotent: what it returns is either the text itself or code
      without a fence. */
  lemma ExtractCodeBlockIdempotent(text: string)
    ensures ExtractCodeBlock(ExtractCodeBlock(text)) == ExtractCodeBlock(text)
  {
  }

  /** The success case, stated without IndexOf: with `open` the first fence, `nl` the
      first line feed from there and `end` the first fence after that line, and at
      least one character between, the result is that stretch trimmed. Any language
      tag on the fence line is skipped with the rest of that line. */
  lemma ExtractCodeBlockFindsBlock(text: string, open: int, nl: int, end: int)
    requires FirstAt(text, Fence, 0, open)
    requires open <= nl < |text| && text[nl] == '\n'
    requires forall j :: open <= j < nl ==> text[j] != '\n'
    requires FirstAt(text, Fence, nl + 1, end) && nl + 1 < end
    ensures ExtractCodeBlock(text) == Trim(text[nl + 1..end])
  {
    OccursAtWitness(text, Fence, open);
    IndexOfFinds(text, Fence, 0, open);
    OccursAtChar(text, '\n');
    IndexOfFinds(text, "\n", open, nl);
    IndexOfFinds(text, Fence, nl + 1, end);
  }

  /** Soft failure: no line break after the first fence. */
  lemma FenceWithoutLineBreak(text: string, open: int)
    requires FirstAt(text, Fence, 0, open)
    requires forall j :: open <= j < |text| ==> text[j] != '\n'
    ensures ExtractCodeBlock(text) == text
  {
    OccursAtWitness(text, Fence, open);
    IndexOfFinds(text, Fence, 0, open);
    OccursAtChar(text, '\n');
    IndexOfMissing(text, "\n", open);
  }

  /** Soft failure: no fence after the line that opens the block. */
  lemma UnclosedBlock(text: string, open: int, nl: int)
    requires FirstAt(text, Fence, 0, open)
    requires open <= nl < |text| && text[nl] == '\n'
    requires forall j :: open <= j < nl ==> text[j] != '\n'
    requires forall j :: nl + 1 <= j ==> !OccursAt(text, Fence, j)
    ensures ExtractCodeBlock(text) == text
  {
    OccursAtWitness(text, Fence, open);
    IndexOfFinds(text, Fence, 0, open);
    OccursAtChar(text, '\n');
    IndexOfFinds(text, "\n", open, nl);
    IndexOfMissing(text, Fence, nl + 1);
  }

  /** Soft failure: the closing fence starts right after the opening line. */
  lemma EmptyBlock(text: string, open: int, nl: int)
    requires FirstAt(text, Fence, 0, open)
    requires open <= nl < |text| && text[nl] == '\n'
    requires forall j :: open <= j < nl ==> text[j] != '\n'
    requires OccursAt(text, Fence, nl + 1)
    ensures ExtractCodeBlock(text) == text
  {
    OccursAtWitness(text, Fence, open);
    IndexOfFinds(text, Fence, 0, open);
    OccursAtChar(text, '\n');
    IndexOfFinds(text, "\n", open, nl);
    IndexOfFinds(text, Fence, nl + 1, nl + 1);
  }

  /** The fenced block of the fix prompt, spelled out. */
  lemma FencedBlockText(code: string)
    ensures Lines(FencedBlock(code)) == Fence + NewLine + (code + NewLine + (Fence + NewLine))
  {
    var ls := FencedBlock(code);
    assert ls[1..][1..][1..] == [];
    assert Lines(ls[1..][1..]) == Fence + NewLine;
  }

  /** No fence starts inside a fence-free text that does not end with a backquote,
      whatever follows it. */
  lemma NoFenceInPreamble(pre: string, rest: string)
    requires !Contains(pre, Fence) && (pre == [] || pre[|pre| - 1] != '`')
    ensures forall j :: 0 <= j < |pre| ==> !OccursAt(pre + rest, Fence, j)
  {
    var t := pre + rest;
    forall j | 0 <= j < |pre| ensures !OccursAt(t, Fence, j) {
      if j + 3 <= |pre| {
        assert t[j..j + 3] == pre[j..j + 3];
        assert !OccursAt(pre, Fence, j);
      } else if j + 3 <= |t| {
        var k := |pre| - 1 - j;
        assert t[j..j + 3][k] == t[|pre| - 1] == pre[|pre| - 1];
        assert Fence[k] == '`';
      }
    }
  }

  /** No fence starts inside a fence-free text followed by a line break. */
  lemma NoFenceInBody(code: string, rest: string)
    requires !Contains(code, Fence)
    ensures forall j :: 0 <= j < |code| + 2 ==> !OccursAt(code + NewLine + rest, Fence, j)
  {
    var t := code + NewLine + rest;
    assert t[..|code|] == code;
    assert t[|code|] == '\r' && t[|code| + 1] == '\n';
    forall j | 0 <= j < |code| + 2 ensures !OccursAt(t, Fence, j) {
      if j + 3 <= |code| {
        assert t[j..j + 3] == t[..|code|][j..j + 3];
        assert !OccursAt(code, Fence, j);
      } else if j + 3 <= |t| {
        if j <= |code| {
          assert t[j..j + 3][|code| - j] == '\r';
        } else {
          assert t[j..j + 3][0] == '\n';
        }
      }
    }
  }

  /** A first occurrence keeps its place, shifted, when text is put in front. */
  lemma FirstAtShift(pre: string, rest: string, from: int, i: int)
    requires 0 <= from && FirstAt(rest, Fence, from, i)
    ensures FirstAt(pre + rest, Fence, |pre| + from, |pre| + i)
  {
    var t := pre + rest;
    assert t[|pre| + i..|pre| + i + 3] == rest[i..i + 3];
    forall j | |pre| + from <= j < |pre| + i ensures !OccursAt(t, Fence, j) {
      assert !OccursAt(rest, Fence, j - |pre|);
      if j + 3 <= |t| {
        assert t[j..j + 3] == rest[j - |pre|..j - |pre| + 3];
      }
    }
  }

  /** Where the fences and the first line break of a fenced block lie. */
  lemma FencedBlockShape(code: string, post: string)
    requires !Contains(code, Fence)
    ensures var block := Fence + NewLine + (code + NewLine + (Fence + NewLine + post));
      FirstAt(block, Fence, 0, 0) && FirstAt(block, Fence, 5, |code| + 7)
      && block[3] == '\r' && block[4] == '\n' && block[5..|code| + 7] == code + NewLine
  {
    var close := Fence + NewLine + post;
    var body := code + NewLine + close;
    var block := Fence + NewLine + body;
    NoFenceInBody(code, close);
    assert body[|code| + 2..|code| + 5] == Fence;
    FirstAtShift(Fence + NewLine, body, 0, |code| + 2);
    assert block[0..3] == Fence;
    assert block[5..|code| + 7] == body[..|code| + 2];
  }

  /** A block whose opening fence, at `open`, is the first fence of the text and is
      followed directly by a line break: the result is what lies between that line
      and the next fence, trimmed. */
  lemma ExtractFencedAt(t: string, open: int, end: int)
    requires forall j :: 0 <= j < open ==> !OccursAt(t, Fence, j)
    requires OccursAt(t, Fence, open) && open + 5 <= |t| && t[open + 3] == '\r' && t[open + 4] == '\n'
    requires FirstAt(t, Fence, open + 5, end) && open + 5 < end
    ensures ExtractCodeBlock(t) == Trim(t[open + 5..end])
  {
    assert t[open..open + 3] == Fence;
    assert t[open] == '`' && t[open + 1] == '`' && t[open + 2] == '`';
    ExtractCodeBlockFindsBlock(t, open, open + 4, end);
  }

  /** A slice of the part after a prefix. */
  lemma SliceAfter(pre: string, s: string, lo: int, hi: int)
    requires 0 <= lo <= hi <= |s|
    ensures (pre + s)[|pre| + lo..|pre| + hi] == s[lo..hi]
  {
  }

  /** The same block after a preamble without fences. */
  lemma ExtractAfterPreamble(pre: string, block: string, end: int)
    requires forall j :: 0 <= j < |pre| ==> !OccursAt(pre + block, Fence, j)
    requires FirstAt(block, Fence, 0, 0) && |block| >= 5 && block[3] == '\r' && block[4] == '\n'
    requires FirstAt(block, Fence, 5, end) && 5 < end
    ensures ExtractCodeBlock(pre + block) == Trim(block[5..end])
  {
    var t := pre + block;
    FirstAtShift(pre, block, 0, 0);
    FirstAtShift(pre, block, 5, end);
    assert t[|pre| + 3] == block[3] && t[|pre| + 4] == block[4];
    ExtractFencedAt(t, |pre|, |pre| + end);
    SliceAfter(pre, block, 5, end);
    SameTrim(t[|pre| + 5..|pre| + end], block[5..end]);
  }

  /** Equal texts trim alike. */
  lemma SameTrim(a: string, b: string)
    requires a == b
    ensures Trim(a) == Trim(b)
  {
  }

  /** Round trip with the fix prompt: a reply that puts the code in the block the fix
      prompt asks for (a fence line, the code, a fence line, each ending with NewLine),
      after a preamble without fences, gives back the code, trimmed. */
  lemma FixReplyRoundTrip(pre: string, code: string, post: string)
    requires !Contains(pre, Fence) && (pre == [] || pre[|pre| - 1] != '`')
    requires !Contains(code, Fence)
    ensures ExtractCodeBlock(pre + Lines(FencedBlock(code)) + post) == Trim(code)
  {
    var block := Fence + NewLine + (code + NewLine + (Fence + NewLine + post));
    assert pre + Lines(FencedBlock(code)) + post == pre + block by {
      FencedBlockText(code);
    }
    assert ExtractCodeBlock(pre + block) == Trim(code + NewLine) by {
      FencedBlockShape(code, post);
      NoFenceInPreamble(pre, block);
      ExtractAfterPreamble(pre, block, |code| + 7);
    }
    TrimAppendSpace(code, NewLine);
  }

  // ---------------------------------------------------------------------------
  // IsBinaryOrLargeFile

  /** Files longer than this (100 KB, counted in characters) are not analysed. */
  const MaxAnalyzedLength: nat := 100 * 1024

  /** A control character other than tab, line feed and carriage return. */
  function IsNonPrintable(c: char): (r: bool)
    ensures r <==> c as int < 32 && c as int != 9 && c as int != 10 && c as int != 13
  {
    c < ' ' && c != '\t' && c != '\n' && c != '\r'
  }

  function NonPrintableCount(s: string): (n: nat)
    ensures n <= |s|
  {
    if s == [] then 0
    else NonPrintableCount(s[..|s| - 1]) + (if IsNonPrintable(s[|s| - 1]) then 1 else 0)
  }

  /** The count is the number of positions that hold a non-printable character. */
  lemma {:induction false} NonPrintableCountIsCardinality(s: string)
    ensures NonPrintableCount(s) == |set i | 0 <= i < |s| && IsNonPrintable(s[i])|
  {
    if s != [] {
      var init := s[..|s| - 1];
      NonPrintableCountIsCardinality(init);
      var before := set i | 0 <= i < |init| && IsNonPrintable(init[i]);
      var after := set i | 0 <= i < |s| && IsNonPrintable(s[i]);
      if IsNonPrintable(s[|s| - 1]) {
        assert after == before + {|s| - 1};
      } else {
        assert after == before;
      }
    }
  }

  /** Binary or too large: over the size limit, or more than a tenth of the
      characters are non-printable. The source compares the count with
      Length * 0.1 in floating point; for every length up to the limit that
      comparison agrees with the integer one used here. */
  function IsBinaryOrLargeFile(content: string): (r: bool)
    ensures |content| > MaxAnalyzedLength ==> r
    ensures content == "" ==> !r
    ensures |content| <= MaxAnalyzedLength && NonPrintableCount(content) == 0 ==> !r
    ensures |content| <= MaxAnalyzedLength && content != "" && NonPrintableCount(content) == |content| ==> r
  {
    |content| > MaxAnalyzedLength || 10 * NonPrintableCount(content) > |content|
  }

  // ---------------------------------------------------------------------------
  // The active document

  const NoActiveDocument: string := "No active document found."

  function AnalysisHeader(path: string): string
  {
    "Analysis of " + path + ":\n\n"
  }

  /** AnalyzeActiveDocumentAsync: an empty or missing document is reported as no
      document; otherwise the model's analysis of the text, under a header naming
      the document, or the error. */
  function AnalyzeActiveDocument(ws: Workspace, model: Model): (report: string)
    reads ws
    ensures ws.ActiveContent().0 == "" ==> report == NoActiveDocument
    ensures ws.ActiveContent().0 != "" ==>
      StartsWith(report, AnalysisHeader(ws.ActivePath())) || StartsWith(report, "Error analyzing document: ")
  {
    var (content, language) := ws.ActiveContent();
    if content == "" then NoActiveDocument
    else match model(AnalyzeCode(content, language))
      case Answer(analysis) => AnalysisHeader(ws.ActivePath()) + analysis
      case Fault(message) => "Error analyzing document: " + message
  }

  /** The model is consulted once, with the analysis prompt for the document's text
      and language, and not at all when there is no text: two models that agree on
      that one request give the same report. */
  lemma AnalysisConsultsModelOnce(ws: Workspace, m1: Model, m2: Model)
    requires ws.ActiveContent().0 == "" ||
      m1(AnalyzeCode(ws.ActiveContent().0, ws.ActiveContent().1))
      == m2(AnalyzeCode(ws.ActiveContent().0, ws.ActiveContent().1))
    ensures AnalyzeActiveDocument(ws, m1) == AnalyzeActiveDocument(ws, m2)
  {
  }

  /** The analysis text the model gives follows the header verbatim. */
  lemma AnalysisReportCarriesAnswer(ws: Workspace, model: Model)
    requires ws.ActiveContent().0 != ""
    requires model(AnalyzeCode(ws.ActiveContent().0, ws.ActiveContent().1)).Answer?
    ensures var analysis := model(AnalyzeCode(ws.ActiveContent().0, ws.ActiveContent().1)).text;
      var report := AnalyzeActiveDocument(ws, model);
      StartsWith(report, AnalysisHeader(ws.ActivePath()))
      && report[|AnalysisHeader(ws.ActivePath())|..] == analysis
  {
  }

  /** GenerateFixesForActiveDocumentAsync: the model's reply to the fix prompt built
      from the document and the analysis report, no document, or the error. */
  function GenerateFixesForActiveDocument(ws: Workspace, model: Model, analysisReport: string): (fixedCode: string)
    reads ws
    ensures ws.ActiveContent().0 == "" ==> fixedCode == NoActiveDocument
    ensures ws.ActiveContent().0 != "" ==>
      var reply := model(GenerateFixes(ws.ActiveContent().0, analysisReport, ws.ActiveContent().1));
      fixedCode == if reply.Answer? then reply.text else "Error generating fixes: " + reply.message
  {
    var (content, language) := ws.ActiveContent();
    if content == "" then NoActiveDocument
    else match model(GenerateFixes(content, analysisReport, language))
      case Answer(fixedCode) => fixedCode
      case Fault(message) => "Error generating fixes: " + message
  }

  /** From fix request to editor: when the model answers the fix request in the form
      the fix prompt asks for (a preamble without fences, then the fenced code), the
      fix that ApplyFixesToActiveDocument writes into the document is that code,
      trimmed. */
  lemma FixRequestToDocument(ws: Workspace, model: Model, analysisReport: string,
                             pre: string, code: string, post: string)
    requires ws.ActiveContent().0 != ""
    requires model(GenerateFixes(ws.ActiveContent().0, analysisReport, ws.ActiveContent().1))
      == Answer(pre + Lines(FencedBlock(code)) + post)
    requires !Contains(pre, Fence) && (pre == [] || pre[|pre| - 1] != '`')
    requires !Contains(code, Fence)
    ensures ExtractCodeBlock(GenerateFixesForActiveDocument(ws, model, analysisReport)) == Trim(code)
  {
    FixReplyRoundTrip(pre, code, post);
  }

  const FixesApplied: string := "Fixes applied successfully."
  const FixesNotApplied: string := "Failed to apply fixes."

  /** ApplyFixesToActiveDocumentAsync: writes the code extracted from the fix into the
      active document; the status says whether the update succeeded. */
  method ApplyFixesToActiveDocument(ws: Workspace, fixedCode: string) returns (status: string)
    modifies ws
    ensures status == FixesApplied || status == FixesNotApplied
    ensures Updated(old(ws.active), old(ws.disk), ExtractCodeBlock(fixedCode), status == FixesApplied, ws.active, ws.disk)
    ensures ws.log == old(ws.log)
  {
    var codeToApply := ExtractCodeBlock(fixedCode);
    var success := ws.UpdateActiveDocument(codeToApply);
    if success {
      status := FixesApplied;
    } else {
      status := FixesNotApplied;
    }
  }

  /** Applying a fix and then applying the document's new text again changes
      nothing more. */
  lemma ReapplyingIsStable(active: Option<Document>, fixedCode: string)
    ensures var once := Replaced(active, ExtractCodeBlock(fixedCode));
      Replaced(once, ExtractCodeBlock(ExtractCodeBlock(fixedCode))) == once
  {
    ExtractCodeBlockIdempotent(fixedCode);
    ReplaceTwice(active, ExtractCodeBlock(fixedCode));
  }

  // ---------------------------------------------------------------------------
  // The whole solution

  const NoFiles: string := "No files found in the solution."

  /** String.TrimStart('.'). */
  function TrimDots(s: string): (r: string)
    ensures r == [] || r[0] != '.'
  {
    if s != [] && s[0] == '.' then TrimDots(s[1..]) else s
  }

  /** The language passed for a file of the solution: its extension, lower-cased,
      without the dot. */
  function FileLanguage(path: string): (language: string)
    ensures GetExtension(path) == "" ==> language == ""
    ensures GetExtension(path) != "" ==> language == ToLower(GetExtension(path))[1..]
  {
    var ext := ToLower(GetExtension(path));
    assert ext != [] ==> TrimDots(ext[1..]) == ext[1..];
    TrimDots(ext)
  }

  datatype Outcome = Analyzed(results: Table) | Failed(message: string)

  /** One turn of the first loop: a file that is binary or too large is skipped, any
      other is recorded under its path with the model's reply, and a fault ends the
      loop. */
  function AnalyzeNext(so_far: Outcome, path: string, content: string, reply: Reply): (r: Outcome)
    requires so_far.Analyzed? ==> so_far.results.Valid()
    ensures r.Analyzed? ==> r.results.Valid()
  {
    match so_far
    case Failed(message) => Failed(message)
    case Analyzed(results) =>
      if IsBinaryOrLargeFile(content) then Analyzed(results)
      else match reply
        case Fault(message) => Failed(message)
        case Answer(analysis) => Analyzed(results.Put(path, analysis))
  }

  /** The first loop over the files in order, ending at the first fault. */
  function AnalyzeEach(paths: seq<string>, files: map<string, string>, model: Model): (r: Outcome)
    requires forall k :: 0 <= k < |paths| ==> paths[k] in files
    ensures r.Analyzed? ==> r.results.Valid()
  {
    if paths == [] then Analyzed(EmptyTable)
    else
      var path := paths[|paths| - 1];
      AnalyzeNext(AnalyzeEach(paths[..|paths| - 1], files, model), path, files[path],
                  model(AnalyzeCode(files[path], FileLanguage(path))))
  }

  lemma AnalyzeEachStep(paths: seq<string>, files: map<string, string>, model: Model, i: int)
    requires forall k :: 0 <= k < |paths| ==> paths[k] in files
    requires 0 <= i < |paths|
    ensures AnalyzeEach(paths[..i + 1], files, model)
      == AnalyzeNext(AnalyzeEach(paths[..i], files, model), paths[i], files[paths[i]],
                     model(AnalyzeCode(files[paths[i]], FileLanguage(paths[i]))))
  {
    assert paths[..i + 1][..i] == paths[..i];
  }

  /** The paths of the files that get analysed, in order. */
  function TextFiles(paths: seq<string>, files: map<string, string>): (r: seq<string>)
    requires forall k :: 0 <= k < |paths| ==> paths[k] in files
    ensures |r| <= |paths|
    ensures forall p :: p in r <==> p in paths && !IsBinaryOrLargeFile(files[p])
  {
    if paths == [] then []
    else
      var path := paths[|paths| - 1];
      var before := TextFiles(paths[..|paths| - 1], files);
      if IsBinaryOrLargeFile(files[path]) then before else before + [path]
  }

  /** Once a fault ends the loop, later files change nothing. */
  lemma {:induction false} FailureIsFinal(paths: seq<string>, files: map<string, string>, model: Model, i: nat)
    requires forall k :: 0 <= k < |paths| ==> paths[k] in files
    requires i <= |paths| && AnalyzeEach(paths[..i], files, model).Failed?
    ensures AnalyzeEach(paths, files, model) == AnalyzeEach(paths[..i], files, model)
    decreases |paths| - i
  {
    if i < |paths| {
      var next := paths[..i + 1];
      assert next[..|next| - 1] == paths[..i];
      FailureIsFinal(paths, files, model, i + 1);
    } else {
      assert paths[..i] == paths;
    }
  }

  /** Without a fault, the results hold exactly the text files, in the dictionary's
      order, each with the model's analysis of its content: binary and oversized
      files are left out, and nothing else is. */
  lemma {:induction false} AnalyzedAreTheTextFiles(paths: seq<string>, files: map<string, string>, model: Model)
    requires forall k :: 0 <= k < |paths| ==> paths[k] in files
    requires forall i, j :: 0 <= i < j < |paths| ==> paths[i] != paths[j]
    requires AnalyzeEach(paths, files, model).Analyzed?
    ensures AnalyzeEach(paths, files, model).results.keys == TextFiles(paths, files)
    ensures forall p :: p in AnalyzeEach(paths, files, model).results.entries ==>
      model(AnalyzeCode(files[p], FileLanguage(p))) == Answer(AnalyzeEach(paths, files, model).results.entries[p])
  {
    if paths != [] {
      var init := paths[..|paths| - 1];
      var path := paths[|paths| - 1];
      AnalyzedAreTheTextFiles(init, files, model);
      var before := AnalyzeEach(init, files, model).results;
      assert path !in init;
      assert path !in before.entries;
    }
  }

  /** The underline under a file name: as many dashes as "File: " and the path. */
  function Underline(path: string): (u: string)
    ensures |u| == |"File: " + path|
    ensures forall i :: 0 <= i < |u| ==> u[i] == '-'
  {
    seq(|path| + 6, _ => '-')
  }

  function Digit(d: nat): char
    requires d < 10
  {
    "0123456789"[d]
  }

  /** The decimal form of a count. */
  function NatToString(n: nat): (s: string)
    ensures |s| >= 1 && forall i :: 0 <= i < |s| ==> '0' <= s[i] <= '9'
  {
    if n < 10 then [Digit(n)] else NatToString(n / 10) + [Digit(n % 10)]
  }

  /** The first line of the report: one line, giving the count in decimal. */
  function ReportHeader(count: nat): (h: string)
    ensures NoLineBreak(h)
    ensures StartsWith(h, "Analysis of ") && EndsWith(h, " files:")
    ensures |h| >= 19 && h[12..|h| - 7] == NatToString(count)
  {
    "Analysis of " + NatToString(count) + " files:"
  }

  /** One entry of the report: the path, its underline, the analysis and two empty
      lines. */
  function ReportEntry(path: string, analysis: string): (ls: seq<string>)
    ensures |ls| == 5 && ls[0] == "File: " + path && ls[2] == analysis && ls[3] == "" && ls[4] == ""
    ensures |ls[1]| == |ls[0]| && forall i :: 0 <= i < |ls[1]| ==> ls[1][i] == '-'
  {
    ["File: " + path, Underline(path), analysis, "", ""]
  }

  /** The lines of the entries for `keys`, in order. */
  function EntryLines(keys: seq<string>, entries: map<string, string>): seq<string>
    requires forall k :: 0 <= k < |keys| ==> keys[k] in entries
  {
    if keys == [] then []
    else EntryLines(keys[..|keys| - 1], entries) + ReportEntry(keys[|keys| - 1], entries[keys[|keys| - 1]])
  }

  lemma EntryLinesStep(keys: seq<string>, entries: map<string, string>, j: int)
    requires forall k :: 0 <= k < |keys| ==> keys[k] in entries
    requires 0 <= j < |keys|
    ensures EntryLines(keys[..j + 1], entries) == EntryLines(keys[..j], entries) + ReportEntry(keys[j], entries[keys[j]])
  {
    assert keys[..j + 1][..j] == keys[..j];
  }

  /** A line and an empty line before the rest. */
  lemma HeaderLines(header: string, rest: seq<string>)
    ensures Lines([header, ""] + rest) == header + NewLine + NewLine + Lines(rest)
  {
    var ls := [header, ""] + rest;
    assert ls[1..] == [""] + rest && ls[1..][1..] == rest;
  }

  /** The report: the header line, an empty line, then the entries. */
  function ReportText(results: Table): (text: string)
    requires results.Valid()
    ensures text == ReportHeader(|results.keys|) + NewLine + NewLine + Lines(EntryLines(results.keys, results.entries))
  {
    HeaderLines(ReportHeader(|results.keys|), EntryLines(results.keys, results.entries));
    Lines([ReportHeader(|results.keys|), ""] + EntryLines(results.keys, results.entries))
  }

  /** AnalyzeAllFilesAsync, as a function of the collected files and the model. */
  function AllFilesReport(files: Table, model: Model): (report: string)
    requires files.Valid()
    ensures |files.keys| == 0 ==> report == NoFiles
    ensures |files.keys| > 0 ==> StartsWith(report, "Error analyzing files: ") || StartsWith(report, "Analysis of ")
  {
    if |files.keys| == 0 then NoFiles
    else match AnalyzeEach(files.keys, files.entries, model)
      case Failed(message) => "Error analyzing files: " + message
      case Analyzed(results) => ReportText(results)
  }

  /** The header counts the files that were analysed: binary and oversized files are
      not counted. */
  lemma ReportCountsTextFiles(files: Table, model: Model)
    requires files.Valid() && |files.keys| > 0
    requires AnalyzeEach(files.keys, files.entries, model).Analyzed?
    ensures StartsWith(AllFilesReport(files, model), ReportHeader(|TextFiles(files.keys, files.entries)|) + NewLine)
  {
    AnalyzedAreTheTextFiles(files.keys, files.entries, model);
    var results := AnalyzeEach(files.keys, files.entries, model).results;
    var ls := [ReportHeader(|results.keys|), ""] + EntryLines(results.keys, results.entries);
    assert Lines(ls) == ls[0] + NewLine + Lines(ls[1..]);
  }

  /** The report for no files is the fixed message, and only then. */
  lemma NoFilesReportedOnlyForNoFiles(files: Table, model: Model)
    requires files.Valid()
    ensures AllFilesReport(files, model) == NoFiles <==> |files.keys| == 0
  {
    var r := AllFilesReport(files, model);
    if |files.keys| > 0 {
      match AnalyzeEach(files.keys, files.entries, model)
      case Failed(message) =>
        assert r[0] == 'E' && NoFiles[0] == 'N';
      case Analyzed(results) =>
        var ls := [ReportHeader(|results.keys|), ""] + EntryLines(results.keys, results.entries);
        assert Lines(ls) == ls[0] + NewLine + Lines(ls[1..]);
        assert r[0] == 'A' && NoFiles[0] == 'N';
    }
  }

  /** AnalyzeAllFilesAsync over the files the solution gave: analyse each file that
      is not binary or too large into a new dictionary, stopping at the first fault,
      then write the report: a header with the count and one entry per analysed file,
      in the dictionary's order. */
  method AnalyzeAllFiles(files: Dictionary, model: Model) returns (report: string)
    requires files.contents.Valid()
    ensures report == AllFilesReport(files.contents, model)
  {
    var paths := files.contents.keys;
    var texts := files.contents.entries;
    if |paths| == 0 {
      return NoFiles;
    }
    var analysisResults := new Dictionary();
    var i := 0;
    while i < |paths|
      invariant 0 <= i <= |paths|
      invariant analysisResults.contents.Valid()
      invariant AnalyzeEach(paths[..i], texts, model) == Analyzed(analysisResults.contents)
    {
      var path := paths[i];
      var content := texts[path];
      var language := FileLanguage(path);
      AnalyzeEachStep(paths, texts, model, i);
      if IsBinaryOrLargeFile(content) {
        i := i + 1;
        continue;
      }
      var reply := model(AnalyzeCode(content, language));
      if reply.Fault? {
        FailureIsFinal(paths, texts, model, i + 1);
        assert paths[..|paths|] == paths;
        return "Error analyzing files: " + reply.message;
      }
      analysisResults.Set(path, reply.text);
      i := i + 1;
    }
    assert paths[..|paths|] == paths;
    report := WriteReport(analysisResults.contents);
  }

  /** The report half of AnalyzeAllFilesAsync: the header with the count, then one
      entry per analysed file, in the dictionary's order. */
  method WriteReport(results: Table) returns (report: string)
    requires results.Valid()
    ensures report == ReportText(results)
  {
    var lines := [ReportHeader(|results.keys|), ""];
    var j := 0;
    while j < |results.keys|
      invariant 0 <= j <= |results.keys|
      invariant lines == [ReportHeader(|results.keys|), ""] + EntryLines(results.keys[..j], results.entries)
    {
      var key := results.keys[j];
      EntryLinesStep(results.keys, results.entries, j);
      lines := lines + ReportEntry(key, results.entries[key]);
      j := j + 1;
    }
    assert results.keys[..|results.keys|] == results.keys;
    report := Lines(lines);
  }
}
