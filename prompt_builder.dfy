/** The four prompt templates. Each builder in the source is a straight run of
    StringBuilder.AppendLine calls, so each prompt is the list of its lines, every one
    followed by NewLine. The layout is a contract with the extractors: code sits on its
    own line between two fence lines, and the generation prompt asks for "file path,
    then fenced block". */
module PromptBuilder {
  import opened Strings

  /** The text of a StringBuilder after AppendLine(l) for each l of `ls`, in order
      (AppendLine() with no argument is the empty line). */
  function Lines(ls: seq<string>): (text: string)
    ensures ls != [] ==> EndsWith(text, NewLine)
  {
    if ls == [] then "" else ls[0] + NewLine + Lines(ls[1..])
  }

  const Fence: string := "```"

  function LanguageLine(language: string): string
  {
    "Programming Language: " + language
  }

  /** The six report headings the analysis prompt asks for, in order. */
  const AnalysisHeadings: seq<string> := [
    "Summary", "Critical Issues", "Performance Concerns",
    "Readability & Maintainability", "Security Considerations",
    "Improvement Recommendations"]

  const AnalysisPlaceholders: seq<string> := [
    "[Brief overview of the code and its quality]",
    "[List any bugs, errors, or critical problems]",
    "[Identify performance bottlenecks or inefficient code]",
    "[Suggestions to improve code structure and readability]",
    "[Highlight any security vulnerabilities or risks]",
    "[Specific actionable suggestions for improvement]"]

  /** One section request: the heading and its placeholder, separated by a bare LF
      inside a single appended line. */
  function Section(k: nat): string
    requires k < 6
  {
    "## " + AnalysisHeadings[k] + "\n" + AnalysisPlaceholders[k]
  }

  const AnalysisHead: seq<string> := [
    "You are an expert code reviewer specialized in identifying issues, bugs, and optimization opportunities. Analyze the following code and provide detailed feedback.",
    ""]

  const AnalysisSections: seq<string> :=
    [Section(0), Section(1), Section(2), Section(3), Section(4), Section(5)]

  /** The block a code body travels in: a fence line, the code verbatim on its own line
      and a closing fence line. */
  function FencedBlock(code: string): seq<string>
  {
    [Fence, code, Fence]
  }

  function AnalysisLines(code: string, language: string): seq<string>
  {
    AnalysisHead + [LanguageLine(language)] + ["", "Code to analyze:"] + FencedBlock(code)
    + ["", "Provide your analysis in this structured format:"] + AnalysisSections
  }

  function BuildAnalysisPrompt(code: string, language: string): (prompt: string)
    ensures EndsWith(prompt, NewLine)
  {
    Lines(AnalysisLines(code, language))
  }

  const FixHead: seq<string> := [
    "You are an expert programmer tasked with improving and fixing the following code based on identified issues. Provide the complete fixed code.",
    ""]

  const FixRequests: seq<string> := [
    "",
    "Please provide:",
    "1. A summary of changes you're making to address the issues",
    "2. The complete fixed code (not just the changes)",
    "3. Comment your fixes within the code to explain important changes",
    ""]

  const FixFinalLine: string :=
    "Present the full fixed code inside a single code block marked with triple backticks."

  function FixLines(code: string, issues: string, language: string): seq<string>
  {
    FixHead + [LanguageLine(language)] + ["", "Original code:"] + FencedBlock(code) + [""]
    + ["Issues to address:", issues] + FixRequests + [FixFinalLine]
  }

  function BuildFixPrompt(code: string, issues: string, language: string): (prompt: string)
    ensures EndsWith(prompt, NewLine)
  {
    Lines(FixLines(code, issues, language))
  }

  const GenerationHead: seq<string> := [
    "You are an expert developer tasked with generating high-quality, production-ready code based on the following requirements.",
    ""]

  const GenerationRequests: seq<string> := [
    "",
    "Please generate complete, well-structured code with the following characteristics:",
    "- Include proper error handling",
    "- Add comprehensive comments explaining complex sections",
    "- Follow best practices and design patterns for this language",
    "- Optimize for readability and maintainability",
    "- Include necessary imports/dependencies",
    ""]

  const GenerationFinalLine: string :=
    "For each file, start with the file path, followed by the code in a code block with triple backticks."

  function GenerationLines(description: string, language: string): seq<string>
  {
    GenerationHead + [LanguageLine(language)] + [""] + ["Requirements:", description]
    + GenerationRequests + [GenerationFinalLine]
  }

  function BuildGenerationPrompt(description: string, language: string): (prompt: string)
    ensures EndsWith(prompt, NewLine)
  {
    Lines(GenerationLines(description, language))
  }

  const StructureHead: seq<string> := [
    "You are a software architecture expert tasked with designing a file structure for a program based on the following requirements.",
    ""]

  const StructureTail: seq<string> := [
    "",
    "Please provide a directory structure showing all necessary files with the following format:",
    Fence,
    "project_root/",
    "  \U{251C}\U{2500}\U{2500} file1.ext         # Description of file1's purpose",
    "  \U{251C}\U{2500}\U{2500} directory/",
    "  \U{2502}   \U{251C}\U{2500}\U{2500} file2.ext     # Description of file2's purpose",
    "  \U{2502}   \U{2514}\U{2500}\U{2500} file3.ext     # Description of file3's purpose",
    "  \U{2514}\U{2500}\U{2500} file4.ext         # Description of file4's purpose",
    Fence,
    "",
    "After the directory structure, provide a brief explanation of the overall architecture, including:",
    "1. How components interact with each other",
    "2. Key architectural patterns used",
    "3. Data flow through the system",
    "4. Any external dependencies required"]

  function StructureLines(description: string): seq<string>
  {
    StructureHead + ["Program Requirements:", description] + StructureTail
  }

  /** The file-structure prompt takes the description only: no language. */
  function BuildFileStructurePrompt(description: string): (prompt: string)
    ensures EndsWith(prompt, NewLine)
  {
    Lines(StructureLines(description))
  }

  // ---------------------------------------------------------------------------
  // Layout facts

  /** The lines of `run` appear, each whole and each followed by NewLine, in `text`
      starting at index `i`, and the first of them starts a line of `text`. */
  predicate RunAt(text: string, run: seq<string>, i: int)
  {
    OccursAt(text, Lines(run), i) && (i == 0 || OccursAt(text, NewLine, i - 2))
  }

  lemma {:induction false} LinesAppend(a: seq<string>, b: seq<string>)
    ensures Lines(a + b) == Lines(a) + Lines(b)
  {
    if a == [] {
      assert a + b == b;
    } else {
      assert (a + b)[0] == a[0];
      assert (a + b)[1..] == a[1..] + b;
      LinesAppend(a[1..], b);
    }
  }

  /** Appended lines stay whole: the lines appended last form a run of whole lines of
      the text, right after the text of the lines before them. */
  lemma LinesPiece(pre: seq<string>, run: seq<string>)
    ensures RunAt(Lines(pre + run), run, |Lines(pre)|)
  {
    LinesAppend(pre, run);
    TextAfterLineEnd(Lines(pre), Lines(run));
  }

  /** Text appended after a line end (or to nothing) starts a line. */
  lemma TextAfterLineEnd(a: string, b: string)
    requires a == "" || EndsWith(a, NewLine)
    ensures OccursAt(a + b, b, |a|) && (|a| == 0 || OccursAt(a + b, NewLine, |a| - 2))
  {
    assert OccursAt(b, b, 0);
    OccursInSuffix(a, b, b, 0);
    if a != "" {
      assert OccursAt(a, NewLine, |a| - 2);
      OccursInPrefix(a, b, NewLine, |a| - 2);
    }
  }

  /** Appending more lines keeps every run already there. */
  lemma LinesExtend(pre: seq<string>, post: seq<string>, run: seq<string>, i: int)
    requires RunAt(Lines(pre), run, i)
    ensures RunAt(Lines(pre + post), run, i)
  {
    LinesAppend(pre, post);
    OccursInPrefix(Lines(pre), Lines(post), Lines(run), i);
    if i != 0 {
      OccursInPrefix(Lines(pre), Lines(post), NewLine, i - 2);
    }
  }

  lemma LinesEnd(pre: seq<string>, post: seq<string>)
    ensures EndsWith(Lines(pre + post), Lines(post))
  {
    LinesAppend(pre, post);
  }

  /** A run of lines keeps its place between the lines before and after it. */
  lemma LinesMiddle(pre: seq<string>, run: seq<string>, post: seq<string>)
    ensures RunAt(Lines(pre + run + post), run, |Lines(pre)|)
  {
    LinesPiece(pre, run);
    LinesExtend(pre + run, post, run, |Lines(pre)|);
  }

  /** The analysis prompt carries the language verbatim on a line of its own: no
      default, no validation. */
  lemma AnalysisPromptLanguage(code: string, language: string)
    ensures exists i :: RunAt(BuildAnalysisPrompt(code, language), [LanguageLine(language)], i)
  {
    var post := ["", "Code to analyze:"] + FencedBlock(code)
      + ["", "Provide your analysis in this structured format:"] + AnalysisSections;
    assert AnalysisLines(code, language) == AnalysisHead + [LanguageLine(language)] + post;
    LinesMiddle(AnalysisHead, [LanguageLine(language)], post);
    assert RunAt(BuildAnalysisPrompt(code, language), [LanguageLine(language)], |Lines(AnalysisHead)|);
  }

  /** The analysis prompt carries the code verbatim on its own line between a "```"
      line and a closing "```" line. */
  lemma AnalysisPromptCode(code: string, language: string)
    ensures exists i :: RunAt(BuildAnalysisPrompt(code, language), FencedBlock(code), i)
  {
    var pre := AnalysisHead + [LanguageLine(language)] + ["", "Code to analyze:"];
    var post := ["", "Provide your analysis in this structured format:"] + AnalysisSections;
    assert AnalysisLines(code, language) == pre + FencedBlock(code) + post;
    LinesMiddle(pre, FencedBlock(code), post);
    assert RunAt(BuildAnalysisPrompt(code, language), FencedBlock(code), |Lines(pre)|);
  }

  /** The analysis prompt ends with the six section requests, in the fixed order of
      AnalysisHeadings. */
  lemma AnalysisPromptSections(code: string, language: string)
    ensures EndsWith(BuildAnalysisPrompt(code, language), Lines(AnalysisSections))
  {
    var pre := AnalysisHead + [LanguageLine(language)] + ["", "Code to analyze:"] + FencedBlock(code)
      + ["", "Provide your analysis in this structured format:"];
    assert AnalysisLines(code, language) == pre + AnalysisSections;
    LinesEnd(pre, AnalysisSections);
  }

  /** The fix prompt carries the language line and the fenced code like the analysis
      prompt. */
  lemma FixPromptCode(code: string, issues: string, language: string)
    ensures exists i :: RunAt(BuildFixPrompt(code, issues, language), [LanguageLine(language)], i)
    ensures exists i :: RunAt(BuildFixPrompt(code, issues, language), FencedBlock(code), i)
  {
    var lang := [LanguageLine(language)];
    var p1 := FixHead + lang;
    var p2 := p1 + ["", "Original code:"];
    var p3 := p2 + FencedBlock(code);
    var rest := [""] + ["Issues to address:", issues] + FixRequests + [FixFinalLine];
    assert FixLines(code, issues, language) == p3 + rest;
    var i := |Lines(FixHead)|;
    LinesPiece(FixHead, lang);
    LinesExtend(p1, ["", "Original code:"], lang, i);
    LinesExtend(p2, FencedBlock(code), lang, i);
    LinesExtend(p3, rest, lang, i);
    var j := |Lines(p2)|;
    LinesPiece(p2, FencedBlock(code));
    LinesExtend(p3, rest, FencedBlock(code), j);
    assert RunAt(BuildFixPrompt(code, issues, language), lang, i);
    assert RunAt(BuildFixPrompt(code, issues, language), FencedBlock(code), j);
  }

  /** The fix prompt puts the issues text on the line after "Issues to address:" and
      ends with the request for the full code in a single fenced block. */
  lemma FixPromptIssues(code: string, issues: string, language: string)
    ensures exists i :: RunAt(BuildFixPrompt(code, issues, language), ["Issues to address:", issues], i)
    ensures EndsWith(BuildFixPrompt(code, issues, language), FixFinalLine + NewLine)
  {
    var issuesRun := ["Issues to address:", issues];
    var p4 := FixHead + [LanguageLine(language)] + ["", "Original code:"] + FencedBlock(code) + [""];
    var p6 := p4 + issuesRun + FixRequests;
    assert FixLines(code, issues, language) == p6 + [FixFinalLine];
    var k := |Lines(p4)|;
    LinesPiece(p4, issuesRun);
    LinesExtend(p4 + issuesRun, FixRequests + [FixFinalLine], issuesRun, k);
    assert p4 + issuesRun + (FixRequests + [FixFinalLine]) == p6 + [FixFinalLine];
    assert RunAt(BuildFixPrompt(code, issues, language), issuesRun, k);
    LinesEnd(p6, [FixFinalLine]);
    assert Lines([FixFinalLine]) == FixFinalLine + NewLine;
  }

  /** The generation prompt carries the language line and the description on the line
      after "Requirements:". */
  lemma GenerationPromptLayout(description: string, language: string)
    ensures exists i :: RunAt(BuildGenerationPrompt(description, language), [LanguageLine(language)], i)
    ensures exists i :: RunAt(BuildGenerationPrompt(description, language), ["Requirements:", description], i)
  {
    var lang := [LanguageLine(language)];
    var req := ["Requirements:", description];
    var p1 := GenerationHead + lang;
    var p2 := p1 + [""];
    var p3 := p2 + req;
    var rest := GenerationRequests + [GenerationFinalLine];
    assert GenerationLines(description, language) == p3 + rest;
    var i := |Lines(GenerationHead)|;
    LinesPiece(GenerationHead, lang);
    LinesExtend(p1, [""], lang, i);
    LinesExtend(p2, req, lang, i);
    LinesExtend(p3, rest, lang, i);
    var j := |Lines(p2)|;
    LinesPiece(p2, req);
    LinesExtend(p3, rest, req, j);
    assert RunAt(BuildGenerationPrompt(description, language), lang, i);
    assert RunAt(BuildGenerationPrompt(description, language), req, j);
  }

  /** The generation prompt's last line asks for "file path, then fenced block": the
      shape the chat scanner looks for. */
  lemma GenerationPromptFinalLine(description: string, language: string)
    ensures EndsWith(BuildGenerationPrompt(description, language), GenerationFinalLine + NewLine)
  {
    var p4 := GenerationHead + [LanguageLine(language)] + [""] + ["Requirements:", description] + GenerationRequests;
    assert GenerationLines(description, language) == p4 + [GenerationFinalLine];
    LinesEnd(p4, [GenerationFinalLine]);
    assert Lines([GenerationFinalLine]) == GenerationFinalLine + NewLine;
  }

  /** The file-structure prompt has no language line; it carries the description on the
      line after "Program Requirements:". */
  lemma StructurePromptLayout(description: string)
    ensures exists i :: RunAt(BuildFileStructurePrompt(description), ["Program Requirements:", description], i)
  {
    var req := ["Program Requirements:", description];
    LinesPiece(StructureHead, req);
    LinesExtend(StructureHead + req, StructureTail, req, |Lines(StructureHead)|);
    assert StructureLines(description) == StructureHead + req + StructureTail;
    assert BuildFileStructurePrompt(description) == Lines(StructureHead + req + StructureTail);
    assert RunAt(BuildFileStructurePrompt(description), req, |Lines(StructureHead)|);
  }
}
