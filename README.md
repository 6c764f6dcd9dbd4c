# LLM Code Assistant: a verified model of its core

LLM Code Assistant is a Visual Studio extension. It sends the code in the editor to a
local language model and shows what comes back. This project models the part of the
extension that decides what happens, in Dafny:

- **Prompts** (`PromptBuilder`). The four prompt templates, built line by line as
  `StringBuilder.AppendLine` builds them. The lemmas show where the user's code, the
  language, the issues and the requirements appear in each prompt.
- **The model call** (`LlmService`). The language model is a parameter: a function
  from a request to a reply. A reply is either the answer text or the message of an
  exception thrown while the call was awaited. `Conversation` gives the messages each
  request sends.
- **Code-block extraction** (`Extensions.ExtractCodeBlocks`). The regular expression
  ```` ```(?:\w+)?\s*\n([\s\S]*?)\n``` ```` is written out as a specification
  (`IsMatch`, plus the leftmost, greedy-tag, lazy-body preference in `Preferred`). A
  search is proved to find exactly the match that specification picks. The file holds
  the language-to-extension table too.
- **The file service** (`FileService`). The extension-to-language table. The
  case-insensitive project-directory test. The recursive collection of a project's
  files into a `Dictionary` (a class over an insertion-ordered table). The active
  document and the file system, held in a `Workspace` class that its methods update
  in place.
- **The analysis service** (`AnalysisService`). Analysing and fixing the active
  document. Extracting the code from a fix reply. Skipping binary or large files.
  Analysing every file of a solution and writing the report.
- **The view model** (`AssistantViewModel`). A class with the window's state: mode,
  analysis result, fixed code, chat input, status, busy flag and chat transcript. Its
  methods are the window's actions. The chat action recognises a code-generation
  request and scans the reply for "path line, fence, code, fence" blocks. It creates
  one file per block.

Shared string operations (`Strings`) model the .NET library calls the code uses:
`IndexOf`, `Trim`, `ToLower`, `Split` with `RemoveEmptyEntries`, and `string.Join`.
`Environment.NewLine` is taken to be `"\r\n"`.

## Model

| member | source | states |
|---|---|---|
| Strings.IndexOf | LLMCodeAssistant/LLMCodeAssistant/Services/AnalysisService.cs:192-194 | the result is -1 or an index at or after the start where the pattern occurs; no index between the start and the result holds the pattern, so it is the first occurrence, and -1 means there is none |
| Strings.Trim | LLMCodeAssistant/LLMCodeAssistant/UI/ViewModel/AssistantViewModel.cs:430 | `Trim()` yields a contiguous slice of its input that is empty or starts and ends with a non-white-space character |
| Strings.TrimOfTrimmed | LLMCodeAssistant/LLMCodeAssistant/UI/ViewModel/AssistantViewModel.cs:433 | trimming text that already starts and ends with non-white-space characters leaves it unchanged |
| Strings.TrimNotContains | LLMCodeAssistant/LLMCodeAssistant/Services/AnalysisService.cs:198 | trimming cannot create an occurrence of a pattern that was not there |
| Strings.TrimKeepsInner | LLMCodeAssistant/LLMCodeAssistant/Services/AnalysisService.cs:198 | text with any non-white-space character does not trim to empty |
| Strings.ToLowerIdempotent | LLMCodeAssistant/LLMCodeAssistant/UI/ViewModel/AssistantViewModel.cs:409 | lower-casing twice gives the same text as lower-casing once |
| Strings.SplitLines | LLMCodeAssistant/LLMCodeAssistant/UI/ViewModel/AssistantViewModel.cs:424 | splitting on CR and LF with empty entries removed yields only non-empty entries without line breaks |
| Strings.SplitLinesKeepsText | LLMCodeAssistant/LLMCodeAssistant/UI/ViewModel/AssistantViewModel.cs:424 | the entries, concatenated, are exactly the input with its CR and LF characters removed |
| Strings.SplitJoinRoundTrip | LLMCodeAssistant/LLMCodeAssistant/UI/ViewModel/AssistantViewModel.cs:424-450 | non-empty break-free lines joined with NewLine split back into exactly those lines |
| Strings.SplitSingleLine | LLMCodeAssistant/LLMCodeAssistant/UI/ViewModel/AssistantViewModel.cs:424 | a text without line breaks splits into itself, or into nothing when it is empty |
| PromptBuilder.Lines | LLMCodeAssistant/LLMCodeAssistant/Utilities/PromptBuilder.cs:19-37 | text built by one or more `AppendLine` calls ends with a line terminator |
| PromptBuilder.LinesAppend | LLMCodeAssistant/LLMCodeAssistant/Utilities/PromptBuilder.cs:19-37 | appending two runs of lines gives the concatenation of their texts |
| PromptBuilder.BuildAnalysisPrompt | LLMCodeAssistant/LLMCodeAssistant/Utilities/PromptBuilder.cs:17-38 | the analysis prompt ends with a line terminator |
| PromptBuilder.BuildFixPrompt | LLMCodeAssistant/LLMCodeAssistant/Utilities/PromptBuilder.cs:47-70 | the fix prompt ends with a line terminator |
| PromptBuilder.BuildGenerationPrompt | LLMCodeAssistant/LLMCodeAssistant/Utilities/PromptBuilder.cs:78-98 | the generation prompt ends with a line terminator |
| PromptBuilder.BuildFileStructurePrompt | LLMCodeAssistant/LLMCodeAssistant/Utilities/PromptBuilder.cs:105-130 | the file-structure prompt ends with a line terminator |
| PromptBuilder.AnalysisPromptLanguage | LLMCodeAssistant/LLMCodeAssistant/Utilities/PromptBuilder.cs:22 | the analysis prompt has a whole line "Programming Language: " followed by the language |
| PromptBuilder.AnalysisPromptCode | LLMCodeAssistant/LLMCodeAssistant/Utilities/PromptBuilder.cs:25-27 | the code appears verbatim on its own line, between a fence line and a closing fence line |
| PromptBuilder.AnalysisPromptSections | LLMCodeAssistant/LLMCodeAssistant/Utilities/PromptBuilder.cs:30-35 | the analysis prompt ends with the six section requests, in their fixed order |
| PromptBuilder.FixPromptCode | LLMCodeAssistant/LLMCodeAssistant/Utilities/PromptBuilder.cs:52-57 | the fix prompt carries the language line and the code as a fenced block |
| PromptBuilder.FixPromptIssues | LLMCodeAssistant/LLMCodeAssistant/Utilities/PromptBuilder.cs:59-67 | the issues follow the line "Issues to address:", and the prompt ends with the single-code-block instruction |
| PromptBuilder.GenerationPromptLayout | LLMCodeAssistant/LLMCodeAssistant/Utilities/PromptBuilder.cs:83-86 | the generation prompt carries the language line, and the description follows the line "Requirements:" |
| PromptBuilder.GenerationPromptFinalLine | LLMCodeAssistant/LLMCodeAssistant/Utilities/PromptBuilder.cs:95 | the generation prompt ends by asking for each file as a path followed by a fenced block |
| PromptBuilder.StructurePromptLayout | LLMCodeAssistant/LLMCodeAssistant/Utilities/PromptBuilder.cs:110-111 | the description follows the line "Program Requirements:" |
| LlmService.Conversation | LLMCodeAssistant/LLMCodeAssistant/Services/LLMService.cs:45-74 | the analyse, fix and generate calls each send two turns, the prompt being the user's; a continued conversation sends exactly the messages it is given |
| LlmService.FixRequestCarriesIssues | LLMCodeAssistant/LLMCodeAssistant/Services/LLMService.cs:58-62 | the fix request carries the issues to the model inside the user's prompt, after "Issues to address:" |
| LlmService.AnalysisRequestCarriesCode | LLMCodeAssistant/LLMCodeAssistant/Services/LLMService.cs:45-49 | the analysis request carries the code, fenced, inside the user's prompt |
| Extensions.PreferredUnique | LLMCodeAssistant/LLMCodeAssistant/Utilities/Extensions.cs:26-27 | at most one match is the one the regular expression's leftmost, greedy-tag, lazy-body rule picks |
| Extensions.WordEnd | LLMCodeAssistant/LLMCodeAssistant/Utilities/Extensions.cs:26 | `\w+` taken greedily: the run of word characters ends at the first non-word character |
| Extensions.SpaceEnd | LLMCodeAssistant/LLMCodeAssistant/Utilities/Extensions.cs:26 | `\s*` taken greedily: the run of white space ends at the first non-white-space character |
| Extensions.TryLineFeed | LLMCodeAssistant/LLMCodeAssistant/Utilities/Extensions.cs:26 | backtracking through `\s*` finds the longest white-space run before a line feed that leads to a match, with the shortest body; none means no match for that fence and tag |
| Extensions.TryTag | LLMCodeAssistant/LLMCodeAssistant/Utilities/Extensions.cs:26 | backtracking through the optional tag finds the longest tag that leads to a match; none means no match at that fence |
| Extensions.TryStart | LLMCodeAssistant/LLMCodeAssistant/Utilities/Extensions.cs:26-27 | the search finds the leftmost match and its preferred tag, space and body; none means the text has no match at or after the start |
| Extensions.TagEndsAtWordEnd | LLMCodeAssistant/LLMCodeAssistant/Utilities/Extensions.cs:26 | no match has a tag reaching past the run of word characters after the fence |
| Extensions.ExtractCodeBlocks | LLMCodeAssistant/LLMCodeAssistant/Utilities/Extensions.cs:18-37 | empty text gives empty text; text with no match is returned unchanged; otherwise the result is the first group of the preferred match |
| Extensions.FirstMatchPreferred | LLMCodeAssistant/LLMCodeAssistant/Utilities/Extensions.cs:27-36 | the match the search returns is the one the regular-expression rule prefers |
| Extensions.PreferredIsExtracted | LLMCodeAssistant/LLMCodeAssistant/Utilities/Extensions.cs:36 | the extracted text is the body of the preferred match |
| Extensions.ExtractedBlockHasNoCloseMark | LLMCodeAssistant/LLMCodeAssistant/Utilities/Extensions.cs:26-36 | when any block matches, the result is the body of the preferred match and holds no line feed followed by a fence |
| Extensions.ExtractCodeBlocksRoundTrip | LLMCodeAssistant/LLMCodeAssistant/Utilities/Extensions.cs:18-37 | fencing a body with an optional word tag and extracting it gives the body back |
| Extensions.GetFileExtension | LLMCodeAssistant/LLMCodeAssistant/Utilities/Extensions.cs:73-93 | the result is one of the fifteen extensions of the table, ".txt" included |
| Extensions.GetFileExtensionIgnoresCase | LLMCodeAssistant/LLMCodeAssistant/Utilities/Extensions.cs:75 | the language name is matched without regard to case |
| Extensions.LanguageTagsAreLowerCase | LLMCodeAssistant/LLMCodeAssistant/Utilities/Extensions.cs:75 | every language tag the file service produces is already lower case |
| Extensions.ExtensionRoundTrip | LLMCodeAssistant/LLMCodeAssistant/Utilities/Extensions.cs:75-92 | language of a known extension maps back to that extension (".h" maps back to ".cpp"); an unknown extension maps to ".txt" |
| Extensions.LanguageRoundTrip | LLMCodeAssistant/LLMCodeAssistant/Services/FileService.cs:187-200 | extension of a language tag maps back to that tag |
| FileService.DetermineLanguageFromExtension | LLMCodeAssistant/LLMCodeAssistant/Services/FileService.cs:185-201 | the result is one of the language tags, and it is "plaintext" exactly when the extension is not one of the ten known ones |
| FileService.HeaderAndSourceShareTag | LLMCodeAssistant/LLMCodeAssistant/Services/FileService.cs:197-199 | ".h" and ".cpp" both give "cpp"; ".CS" and "" give "plaintext", since the table is case-sensitive |
| FileService.ExtensionScan | LLMCodeAssistant/LLMCodeAssistant/Services/FileService.cs:54 | the scan for the last dot yields "" or a dot and at least one character, ending the path, with no dot or separator after the first character |
| FileService.GetExtension | LLMCodeAssistant/LLMCodeAssistant/Services/FileService.cs:54 | `Path.GetExtension` yields "" or a suffix of the path that starts with its last dot, has at least one more character and crosses no separator |
| FileService.ExtensionScanLower | LLMCodeAssistant/LLMCodeAssistant/Services/FileService.cs:54 | the extension of the lower-cased path is the lower-cased extension |
| FileService.DocumentLanguageIgnoresCase | LLMCodeAssistant/LLMCodeAssistant/Services/FileService.cs:54-55 | the language of a document does not depend on the case of its name |
| FileService.DocumentLanguage | LLMCodeAssistant/LLMCodeAssistant/Services/FileService.cs:54-55 | the language of a document is always one of the table's tags; it is "plaintext" exactly when the lower-cased extension is not in the table, and in particular when the name has no extension |
| FileService.UpperCaseExtension | LLMCodeAssistant/LLMCodeAssistant/Services/FileService.cs:54-55 | a document named "X.CS" is C#, because its extension is lower-cased before the lookup |
| FileService.IsFileInProject | LLMCodeAssistant/LLMCodeAssistant/Services/FileService.cs:298-312 | true exactly when the project directory is non-empty and the file path starts with it, compared without regard to case |
| FileService.StartsWithLower | LLMCodeAssistant/LLMCodeAssistant/Services/FileService.cs:306 | a prefix test on lower-cased texts is the character-by-character case-insensitive comparison |
| FileService.ProjectTestIgnoresCase | LLMCodeAssistant/LLMCodeAssistant/Services/FileService.cs:306 | lower-casing the directory or the path does not change the outcome |
| FileService.Table.Put | LLMCodeAssistant/LLMCodeAssistant/Services/FileService.cs:227 | a dictionary store keeps keys distinct, sets the entry, and places a new key last while an existing key keeps its place |
| FileService.Dictionary.constructor | LLMCodeAssistant/LLMCodeAssistant/Services/FileService.cs:164 | a new dictionary is empty |
| FileService.Dictionary.ContainsKey | LLMCodeAssistant/LLMCodeAssistant/Services/FileService.cs:223 | true exactly when the key has an entry |
| FileService.Dictionary.Set | LLMCodeAssistant/LLMCodeAssistant/Services/FileService.cs:227 | the dictionary's new contents are the old ones with the entry stored |
| FileService.VisitFile | LLMCodeAssistant/LLMCodeAssistant/Services/FileService.cs:220-233 | no existing entry is changed; at most the file's own path is added, and only when it is non-empty and the file could be read, with its text |
| FileService.WalkAsWritten | LLMCodeAssistant/LLMCodeAssistant/Services/FileService.cs:217-250 | the walk as written keeps the dictionary well-formed and never changes an entry |
| FileService.FolderAsWritten | LLMCodeAssistant/LLMCodeAssistant/Services/FileService.cs:235-244 | the folder branch as written keeps the dictionary well-formed and never changes an entry |
| FileService.WalkAsWrittenSkipsFolderFiles | LLMCodeAssistant/LLMCodeAssistant/Services/FileService.cs:240-243 | a readable file inside a physical folder is not collected by the walk as written |
| FileService.Walk | LLMCodeAssistant/LLMCodeAssistant/Services/FileService.cs:208-252 | the intended walk never changes an entry, never adds the empty path and only appends keys |
| FileService.VisitItem | LLMCodeAssistant/LLMCodeAssistant/Services/FileService.cs:259-290 | visiting one item, recursing into folders and sub-projects, never changes an entry, never adds the empty path and only appends keys |
| FileService.WalkFindsEveryFile | LLMCodeAssistant/LLMCodeAssistant/Services/FileService.cs:208-252 | every readable file with a non-empty path, at any depth of folders and sub-projects, is in the result |
| FileService.WalkIsSound | LLMCodeAssistant/LLMCodeAssistant/Services/FileService.cs:208-252 | every key the walk adds names a readable file of the tree, at any depth, and its value is that file's text |
| FileService.VisitIsSound | LLMCodeAssistant/LLMCodeAssistant/Services/FileService.cs:259-290 | every key added by visiting an item names a readable file inside it, with that file's text |
| FileService.VisitFindsFile | LLMCodeAssistant/LLMCodeAssistant/Services/FileService.cs:259-290 | every readable file inside an item is collected when the item is visited |
| FileService.GetFilesInProject | LLMCodeAssistant/LLMCodeAssistant/Services/FileService.cs:208-252 | the loop that fills the dictionary in place leaves it holding exactly the intended walk of the project's items |
| FileService.WalkSolution | LLMCodeAssistant/LLMCodeAssistant/Services/FileService.cs:172-175 | walking every project in turn keeps the dictionary well-formed, never changes an entry stored by an earlier project (the first file stored under a path wins), never adds the empty path and only appends keys |
| FileService.WalkSolutionIsSound | LLMCodeAssistant/LLMCodeAssistant/Services/FileService.cs:160-178 | every key the solution walk adds names a readable file of some project, and its value is that file's text |
| FileService.GetAllFiles | LLMCodeAssistant/LLMCodeAssistant/Services/FileService.cs:160-178 | a fresh dictionary that is empty without a solution, and otherwise holds the walk of every project in order, under the corrected folder rule of "## Findings" |
| FileService.Replaced | LLMCodeAssistant/LLMCodeAssistant/Services/FileService.cs:87-102 | replacing the content keeps the document and its name; a text document gets the new text; anything else is left as it was |
| FileService.ReplaceTwice | LLMCodeAssistant/LLMCodeAssistant/Services/FileService.cs:98-102 | replacing with the same content twice is the same as replacing once |
| FileService.Workspace.constructor | LLMCodeAssistant/LLMCodeAssistant/Services/FileService.cs:33-154 | a workspace with the given active document and disk, no file created yet |
| FileService.Workspace.HasTextDocument | LLMCodeAssistant/LLMCodeAssistant/Services/FileService.cs:37-47 | true exactly when there is an active document and it is a text document |
| FileService.Workspace.ActiveContent | LLMCodeAssistant/LLMCodeAssistant/Services/FileService.cs:33-58 | ("", "") without an active text document; otherwise its text and a language tag |
| FileService.Workspace.ActivePath | LLMCodeAssistant/LLMCodeAssistant/Services/FileService.cs:64-74 | "" without an active document, otherwise its full name |
| FileService.Workspace.UpdateActiveDocument | LLMCodeAssistant/LLMCodeAssistant/Services/FileService.cs:81-113 | a success means there was an active text document, which now holds the new content, saved to its file; a failure leaves the disk as it was and the text as it was, emptied by the delete, or replaced before the save threw |
| FileService.UpdateNeedsTextDocument | LLMCodeAssistant/LLMCodeAssistant/Services/FileService.cs:87-96 | without an active text document the update fails and changes nothing |
| FileService.UpdateKeepsDocument | LLMCodeAssistant/LLMCodeAssistant/Services/FileService.cs:81-113 | whatever the outcome, the same document stays active under the same name |
| FileService.Workspace.CreateFile | LLMCodeAssistant/LLMCodeAssistant/Services/FileService.cs:121-154 | the returned record says how far the call got: a success means the file holds the content; a failure leaves the disk as it was or with the file written, and the record says which; the active document is untouched and the call is logged |
| FileService.WrittenKeepsOthers | LLMCodeAssistant/LLMCodeAssistant/Services/FileService.cs:121-154 | after a run of creation calls, a path that none of them names is present exactly when it was before, with the same content |
| FileService.CreatedFileHolds | LLMCodeAssistant/LLMCodeAssistant/Services/FileService.cs:121-154 | after a run of creation calls, the file of a call that returned true holds that call's content unless a later call names the same path |
| AnalysisService.ExtractCodeBlock | LLMCodeAssistant/LLMCodeAssistant/Services/AnalysisService.cs:181-203 | text without a fence is returned unchanged; any other result holds no fence |
| AnalysisService.ExtractCodeBlockIdempotent | LLMCodeAssistant/LLMCodeAssistant/Services/AnalysisService.cs:181-203 | extracting from an extracted block changes nothing |
| AnalysisService.ExtractCodeBlockFindsBlock | LLMCodeAssistant/LLMCodeAssistant/Services/AnalysisService.cs:192-198 | with a first fence, a line feed after it and a later fence past that line, the result is the trimmed text between the line feed and that fence |
| AnalysisService.FenceWithoutLineBreak | LLMCodeAssistant/LLMCodeAssistant/Services/AnalysisService.cs:192-202 | a fence with no line feed after it gives the text unchanged |
| AnalysisService.UnclosedBlock | LLMCodeAssistant/LLMCodeAssistant/Services/AnalysisService.cs:194-202 | a block that is never closed gives the text unchanged |
| AnalysisService.EmptyBlock | LLMCodeAssistant/LLMCodeAssistant/Services/AnalysisService.cs:196-202 | a closing fence right after the opening line gives the text unchanged |
| AnalysisService.FixReplyRoundTrip | LLMCodeAssistant/LLMCodeAssistant/Services/AnalysisService.cs:181-203 | a reply of fence-free preamble, the code fenced as the prompts fence it, and anything after gives back the trimmed code |
| AnalysisService.NonPrintableCount | LLMCodeAssistant/LLMCodeAssistant/Services/AnalysisService.cs:219 | the count of control characters other than tab, LF and CR is at most the length |
| AnalysisService.IsNonPrintable | LLMCodeAssistant/LLMCodeAssistant/Services/AnalysisService.cs:219 | a character counts as non-printable exactly when its code is below 32 and is not 9, 10 or 13, the codes the source tests |
| AnalysisService.NonPrintableCountIsCardinality | LLMCodeAssistant/LLMCodeAssistant/Services/AnalysisService.cs:219 | the count is the number of positions holding such a character |
| AnalysisService.IsBinaryOrLargeFile | LLMCodeAssistant/LLMCodeAssistant/Services/AnalysisService.cs:210-221 | over 100 KB is skipped; empty or fully printable text within the limit is kept; text made only of control characters is skipped |
| AnalysisService.AnalyzeActiveDocument | LLMCodeAssistant/LLMCodeAssistant/Services/AnalysisService.cs:35-60 | no active text gives "No active document found."; otherwise the report starts with the analysis header or with the error prefix |
| AnalysisService.AnalysisConsultsModelOnce | LLMCodeAssistant/LLMCodeAssistant/Services/AnalysisService.cs:40-54 | the report depends on the model only through its reply to the one analysis request for the active text |
| AnalysisService.AnalysisReportCarriesAnswer | LLMCodeAssistant/LLMCodeAssistant/Services/AnalysisService.cs:51-54 | when the model answers, the report is the header naming the document's path followed by the answer, verbatim |
| AnalysisService.GenerateFixesForActiveDocument | LLMCodeAssistant/LLMCodeAssistant/Services/AnalysisService.cs:123-144 | no active text gives "No active document found."; otherwise the model's answer to the fix request, or the error text |
| AnalysisService.FixRequestToDocument | LLMCodeAssistant/LLMCodeAssistant/Services/AnalysisService.cs:123-156 | when the model answers with the code fenced as the prompt asks, the code applied is that code, trimmed |
| AnalysisService.ApplyFixesToActiveDocument | LLMCodeAssistant/LLMCodeAssistant/Services/AnalysisService.cs:151-174 | the status is one of the two messages; "Fixes applied successfully." means the document held text and now holds the extracted code, saved; "Failed to apply fixes." covers no text document and an update that threw part-way, leaving the disk as it was |
| AnalysisService.ReapplyingIsStable | LLMCodeAssistant/LLMCodeAssistant/Services/AnalysisService.cs:156-159 | applying the code extracted from an already-applied fix leaves the document as it is |
| AnalysisService.TrimDots | LLMCodeAssistant/LLMCodeAssistant/Services/AnalysisService.cs:83 | `TrimStart('.')` leaves no leading dot |
| AnalysisService.FileLanguage | LLMCodeAssistant/LLMCodeAssistant/Services/AnalysisService.cs:83 | a file's language is its lower-cased extension without the dot, or "" without an extension |
| AnalysisService.AnalyzeNext | LLMCodeAssistant/LLMCodeAssistant/Services/AnalysisService.cs:85-93 | one step of the per-file loop keeps the results well-formed |
| AnalysisService.AnalyzeEach | LLMCodeAssistant/LLMCodeAssistant/Services/AnalysisService.cs:79-94 | the per-file loop keeps the results well-formed |
| AnalysisService.AnalyzeEachStep | LLMCodeAssistant/LLMCodeAssistant/Services/AnalysisService.cs:80-94 | the loop over one more file is one more step after the loop over the files before it |
| AnalysisService.TextFiles | LLMCodeAssistant/LLMCodeAssistant/Services/AnalysisService.cs:85-89 | a file is analysed exactly when it is in the solution and is neither binary nor too large |
| AnalysisService.FailureIsFinal | LLMCodeAssistant/LLMCodeAssistant/Services/AnalysisService.cs:112-115 | once a model call has failed, the later files do not change the outcome |
| AnalysisService.AnalyzedAreTheTextFiles | LLMCodeAssistant/LLMCodeAssistant/Services/AnalysisService.cs:79-94 | the results hold exactly the text files, in solution order, each with the model's answer for that file's content and language |
| AnalysisService.Underline | LLMCodeAssistant/LLMCodeAssistant/Services/AnalysisService.cs:104 | the underline is all dashes and as long as the "File: " line above it |
| AnalysisService.NatToString | LLMCodeAssistant/LLMCodeAssistant/Services/AnalysisService.cs:98 | a count is written as one or more decimal digits |
| AnalysisService.EntryLinesStep | LLMCodeAssistant/LLMCodeAssistant/Services/AnalysisService.cs:101-108 | the entries of one more result are the earlier entries followed by that result's entry |
| AnalysisService.ReportCountsTextFiles | LLMCodeAssistant/LLMCodeAssistant/Services/AnalysisService.cs:98 | the report's first line gives the number of text files analysed |
| AnalysisService.ReportHeader | LLMCodeAssistant/LLMCodeAssistant/Services/AnalysisService.cs:98 | the header is a single line that starts "Analysis of ", ends " files:" and has the count's decimal digits between |
| AnalysisService.ReportEntry | LLMCodeAssistant/LLMCodeAssistant/Services/AnalysisService.cs:102-106 | an entry is five lines: "File: " and the path, a line of dashes exactly as long as that first line, the analysis, and two empty lines |
| AnalysisService.ReportText | LLMCodeAssistant/LLMCodeAssistant/Services/AnalysisService.cs:96-110 | the report is the header line, an empty line, then the entries in order |
| AnalysisService.AllFilesReport | LLMCodeAssistant/LLMCodeAssistant/Services/AnalysisService.cs:66-116 | an empty solution gives "No files found in the solution."; otherwise the text is the error text or a report starting with the header |
| AnalysisService.NoFilesReportedOnlyForNoFiles | LLMCodeAssistant/LLMCodeAssistant/Services/AnalysisService.cs:73-76 | the report is "No files found in the solution." exactly when the solution has no files |
| AnalysisService.AnalyzeAllFiles | LLMCodeAssistant/LLMCodeAssistant/Services/AnalysisService.cs:66-116 | the loop that calls the model per file and writes the report yields the report of the whole solution |
| AnalysisService.WriteReport | LLMCodeAssistant/LLMCodeAssistant/Services/AnalysisService.cs:96-110 | the loop that appends one entry per result yields the header and every entry in order |
| AssistantViewModel.IntentIgnoresCase | LLMCodeAssistant/LLMCodeAssistant/UI/ViewModel/AssistantViewModel.cs:407-413 | whether a message asks for code does not depend on its case |
| AssistantViewModel.IsCodeGenerationRequest | LLMCodeAssistant/LLMCodeAssistant/UI/ViewModel/AssistantViewModel.cs:407-413 | a message asks for code exactly when its lower-cased text contains one of the six words "create", "generate", "build", "make", "write" and "develop", anywhere |
| AssistantViewModel.WordSurvivesContext | LLMCodeAssistant/LLMCodeAssistant/UI/ViewModel/AssistantViewModel.cs:409-412 | a keyword found in the lower-cased message is still found with text around it |
| AssistantViewModel.IntentSurvivesContext | LLMCodeAssistant/LLMCodeAssistant/UI/ViewModel/AssistantViewModel.cs:407-413 | a message that asks for code still does with any text before or after it |
| AssistantViewModel.KindsOf | LLMCodeAssistant/LLMCodeAssistant/UI/ViewModel/AssistantViewModel.cs:428-440 | there is one line classification per line |
| AssistantViewModel.KindAt | LLMCodeAssistant/LLMCodeAssistant/UI/ViewModel/AssistantViewModel.cs:428-440 | each line's classification is that line's path test and fence test |
| AssistantViewModel.IsPathLine | LLMCodeAssistant/LLMCodeAssistant/UI/ViewModel/AssistantViewModel.cs:428 | a line may name a file exactly when it holds a dot and a forward or backward slash |
| AssistantViewModel.IsFenceLine | LLMCodeAssistant/LLMCodeAssistant/UI/ViewModel/AssistantViewModel.cs:433-440 | a line opens or closes a block exactly when three backquotes follow nothing but white space |
| Strings.TrimStartsWithMark | LLMCodeAssistant/LLMCodeAssistant/UI/ViewModel/AssistantViewModel.cs:433-440 | a mark that begins and ends with non-white characters starts the trimmed line exactly when it follows only white space in the line |
| AssistantViewModel.CloseFence | LLMCodeAssistant/LLMCodeAssistant/UI/ViewModel/AssistantViewModel.cs:436-445 | the search for the closing fence yields -1 or an index at or after its start |
| AssistantViewModel.AssistantViewModel.FindClosingFence | LLMCodeAssistant/LLMCodeAssistant/UI/ViewModel/AssistantViewModel.cs:436-445 | the inner loop finds the first fence line at or after its start, or -1 when there is none |
| AssistantViewModel.CloseFenceIsFirst | LLMCodeAssistant/LLMCodeAssistant/UI/ViewModel/AssistantViewModel.cs:438-445 | the closing fence found is a fence line and the first one from the start; -1 means none follows |
| AssistantViewModel.CloseFenceOfFirst | LLMCodeAssistant/LLMCodeAssistant/UI/ViewModel/AssistantViewModel.cs:438-445 | conversely, the first fence line from the start, or -1 when there is none, is what the search yields |
| AssistantViewModel.Blocks | LLMCodeAssistant/LLMCodeAssistant/UI/ViewModel/AssistantViewModel.cs:425-468 | every block the scan takes starts at or after the scan's start, has at least one code line and closes inside the reply |
| AssistantViewModel.BlocksAreBlocks | LLMCodeAssistant/LLMCodeAssistant/UI/ViewModel/AssistantViewModel.cs:425-468 | every block the scan takes is one: a path line, an opening fence on the next line, code, and the first fence line after the code as its closing line |
| AssistantViewModel.BlocksAreDisjoint | LLMCodeAssistant/LLMCodeAssistant/UI/ViewModel/AssistantViewModel.cs:447-467 | the blocks come in order and do not overlap, since the scan resumes after each closing fence |
| AssistantViewModel.InOrderCons | LLMCodeAssistant/LLMCodeAssistant/UI/ViewModel/AssistantViewModel.cs:467 | a block that closes before the later ones start keeps the sequence in order |
| AssistantViewModel.InOrderTake | LLMCodeAssistant/LLMCodeAssistant/UI/ViewModel/AssistantViewModel.cs:447-467 | taking a block and resuming after it keeps the blocks in order |
| AssistantViewModel.InOrderSkip | LLMCodeAssistant/LLMCodeAssistant/UI/ViewModel/AssistantViewModel.cs:425-428 | skipping a line that starts no block keeps the blocks in order |
| AssistantViewModel.BlocksMissNothing | LLMCodeAssistant/LLMCodeAssistant/UI/ViewModel/AssistantViewModel.cs:425-468 | every line that would start a block on its own is either a block's path line or inside an earlier block |
| AssistantViewModel.CoveredTake | LLMCodeAssistant/LLMCodeAssistant/UI/ViewModel/AssistantViewModel.cs:447-467 | a line inside a taken block, or covered after it, is covered |
| AssistantViewModel.CoveredSkip | LLMCodeAssistant/LLMCodeAssistant/UI/ViewModel/AssistantViewModel.cs:425-428 | a line covered after a skipped line is covered |
| AssistantViewModel.CoveredHead | LLMCodeAssistant/LLMCodeAssistant/UI/ViewModel/AssistantViewModel.cs:447-467 | a line inside the first block is covered |
| AssistantViewModel.CoveredTail | LLMCodeAssistant/LLMCodeAssistant/UI/ViewModel/AssistantViewModel.cs:467 | a line covered by the later blocks is covered |
| AssistantViewModel.RequestsOf | LLMCodeAssistant/LLMCodeAssistant/UI/ViewModel/AssistantViewModel.cs:430-453 | there is one file request per block |
| AssistantViewModel.RequestsOfAt | LLMCodeAssistant/LLMCodeAssistant/UI/ViewModel/AssistantViewModel.cs:430-453 | each block's request is the trimmed path line and the joined code lines |
| AssistantViewModel.CarriedAll | LLMCodeAssistant/LLMCodeAssistant/UI/ViewModel/AssistantViewModel.cs:453 | there is one request per file-creation call |
| AssistantViewModel.CreatedMessages | LLMCodeAssistant/LLMCodeAssistant/UI/ViewModel/AssistantViewModel.cs:455-464 | there is at most one "Created file" message per creation call |
| AssistantViewModel.CreatedMessagesStep | LLMCodeAssistant/LLMCodeAssistant/UI/ViewModel/AssistantViewModel.cs:455-464 | one more creation call adds its message exactly when it succeeded |
| AssistantViewModel.RequestCodeHasNoBlankLines | LLMCodeAssistant/LLMCodeAssistant/UI/ViewModel/AssistantViewModel.cs:424-450 | a created file's content splits back into exactly the block's code lines, so blank lines are dropped and line endings become NewLine |
| AssistantViewModel.FileRequestsOfBlocks | LLMCodeAssistant/LLMCodeAssistant/UI/ViewModel/AssistantViewModel.cs:424-468 | the files requested by a reply are the requests of the blocks its lines form |
| AssistantViewModel.BlockCodeLines | LLMCodeAssistant/LLMCodeAssistant/UI/ViewModel/AssistantViewModel.cs:450 | a block's code splits back into the lines between its opening and closing fences |
| AssistantViewModel.TextIsNoFence | LLMCodeAssistant/LLMCodeAssistant/UI/ViewModel/AssistantViewModel.cs:433 | a line without a backquote is never taken for a fence |
| AssistantViewModel.NoFenceNoFile | LLMCodeAssistant/LLMCodeAssistant/UI/ViewModel/AssistantViewModel.cs:433-447 | a path line followed by plain text requests no file |
| AssistantViewModel.TwoLines | LLMCodeAssistant/LLMCodeAssistant/UI/ViewModel/AssistantViewModel.cs:424 | two non-empty lines joined by a line feed split into those two lines |
| AssistantViewModel.NoFenceNoBlocks | LLMCodeAssistant/LLMCodeAssistant/UI/ViewModel/AssistantViewModel.cs:433 | a path line followed by plain text forms no block |
| AssistantViewModel.GeneratedFileRoundTrip | LLMCodeAssistant/LLMCodeAssistant/UI/ViewModel/AssistantViewModel.cs:424-467 | a reply laid out as the generation prompt asks (path, fence, code, fence) requests exactly one file: the trimmed path with the code lines joined by NewLine |
| AssistantViewModel.GeneratedLinesSplit | LLMCodeAssistant/LLMCodeAssistant/UI/ViewModel/AssistantViewModel.cs:424 | such a reply splits back into its path, fence, code and fence lines |
| AssistantViewModel.GeneratedRequest | LLMCodeAssistant/LLMCodeAssistant/UI/ViewModel/AssistantViewModel.cs:430-450 | the request of its one block is the trimmed path and the joined code |
| AssistantViewModel.GeneratedBlock | LLMCodeAssistant/LLMCodeAssistant/UI/ViewModel/AssistantViewModel.cs:425-468 | its lines form exactly one block, from the path line to the last fence |
| AssistantViewModel.GeneratedKinds | LLMCodeAssistant/LLMCodeAssistant/UI/ViewModel/AssistantViewModel.cs:428-440 | its first line may be a path, the second and last are fences and no code line is one |
| AssistantViewModel.SingleBlock | LLMCodeAssistant/LLMCodeAssistant/UI/ViewModel/AssistantViewModel.cs:425-468 | a path line, a fence, fence-free lines and a final fence form exactly one block |
| AssistantViewModel.BlocksSkip | LLMCodeAssistant/LLMCodeAssistant/UI/ViewModel/AssistantViewModel.cs:425-447 | a line that starts no block adds none |
| AssistantViewModel.BlocksFrom | LLMCodeAssistant/LLMCodeAssistant/UI/ViewModel/AssistantViewModel.cs:447-467 | a line that starts a block contributes that block, and the scan resumes after its closing fence |
| AssistantViewModel.ScanSkip | LLMCodeAssistant/LLMCodeAssistant/UI/ViewModel/AssistantViewModel.cs:425-447 | skipping a line keeps "files created so far plus files still to come is every requested file" |
| AssistantViewModel.ScanTake | LLMCodeAssistant/LLMCodeAssistant/UI/ViewModel/AssistantViewModel.cs:447-467 | creating a block's file keeps that invariant |
| AssistantViewModel.Transcript | LLMCodeAssistant/LLMCodeAssistant/UI/ViewModel/AssistantViewModel.cs:345 | the conversation sent has one turn per chat message, with the same content, and the role "user" exactly for the user's messages and "assistant" for the rest |
| AssistantViewModel.Welcome | LLMCodeAssistant/LLMCodeAssistant/UI/ViewModel/AssistantViewModel.cs:211-216 | the welcome message is the assistant's, not the user's, and names the model right after its greeting |
| AssistantViewModel.AssistantViewModel.constructor | LLMCodeAssistant/LLMCodeAssistant/UI/ViewModel/AssistantViewModel.cs:193-220 | analysis mode, no analysis or fixed code, empty input, "Ready", not busy, and only the welcome message naming the model |
| AssistantViewModel.AssistantViewModel.HasFixedCode | LLMCodeAssistant/LLMCodeAssistant/UI/ViewModel/AssistantViewModel.cs:117 | true exactly when there is fixed code |
| AssistantViewModel.AssistantViewModel.HasChatInput | LLMCodeAssistant/LLMCodeAssistant/UI/ViewModel/AssistantViewModel.cs:136 | true exactly when the input is non-empty, so when it is false sending does nothing |
| AssistantViewModel.AssistantViewModel.SetMode | LLMCodeAssistant/LLMCodeAssistant/UI/ViewModel/AssistantViewModel.cs:241-244 | the mode becomes the one given |
| AssistantViewModel.AssistantViewModel.AnalyzeActiveDocument | LLMCodeAssistant/LLMCodeAssistant/UI/ViewModel/AssistantViewModel.cs:249-268 | the result is the service's report; the status goes through "Analyzing code..." to "Analysis complete", and the busy flag is cleared |
| AssistantViewModel.AssistantViewModel.GenerateFixes | LLMCodeAssistant/LLMCodeAssistant/UI/ViewModel/AssistantViewModel.cs:273-292 | the fixed code is the service's fixes for the current analysis; the status goes through "Generating fixes..." to "Fixes generated" |
| AssistantViewModel.AssistantViewModel.RequestFixes | LLMCodeAssistant/LLMCodeAssistant/UI/AssistantWindow.xaml.cs:60-71 | without an analysis the user is told to analyse first and nothing changes; otherwise the mode becomes Fix, fixes are generated, the status shows "Generating fixes..." and then "Fixes generated", and the window is not busy |
| AssistantViewModel.AssistantViewModel.ApplyFixes | LLMCodeAssistant/LLMCodeAssistant/UI/ViewModel/AssistantViewModel.cs:297-315 | the status is the service's result: success means the document now holds the extracted code and is saved, failure leaves the disk as it was and the text unchanged, emptied or replaced; "Applying fixes..." is shown first |
| AssistantViewModel.AssistantViewModel.SendChatMessage | LLMCodeAssistant/LLMCodeAssistant/UI/ViewModel/AssistantViewModel.cs:320-381 | blank input changes nothing; otherwise the input is cleared and the user's message recorded; a failure adds the "Error:" message and changes no file; an answer adds the created-file messages and the answer and ends "Ready"; for a code request the creation calls are exactly the reply's requests and the disk is the old one with those calls' writes applied in order; otherwise no file changes |
| AssistantViewModel.AssistantViewModel.ShowAnswer | LLMCodeAssistant/LLMCodeAssistant/UI/ViewModel/AssistantViewModel.cs:350-365 | the answer is shown after the messages of the files it created; for a code request files are created exactly as the reply requests and the disk holds their writes in order, otherwise nothing changes; the status becomes "Ready" |
| AssistantViewModel.AssistantViewModel.HandleCodeGeneration | LLMCodeAssistant/LLMCodeAssistant/UI/ViewModel/AssistantViewModel.cs:419-483 | one creation call per requested file, in reply order, with its path and code; one "Created file" message per success; the disk is the old one with each call's write applied in order; the active document is untouched |
| AssistantViewModel.AssistantViewModel.CreateRequestedFiles | LLMCodeAssistant/LLMCodeAssistant/UI/ViewModel/AssistantViewModel.cs:425-471 | the scan loop makes exactly the creation calls the blocks request, in order, reports each success, and leaves the disk with their writes applied in order |
| AssistantViewModel.AssistantViewModel.CreateBlockFile | LLMCodeAssistant/LLMCodeAssistant/UI/ViewModel/AssistantViewModel.cs:430-464 | one creation call with the block's trimmed path and joined code, the disk updated as that call went, and a "Created file" message exactly when it succeeds |
| AssistantViewModel.AssistantViewModel.ScanLine | LLMCodeAssistant/LLMCodeAssistant/UI/ViewModel/AssistantViewModel.cs:427-468 | one iteration advances the scan and keeps "files created so far plus files still to come is every requested file" and "the disk holds the writes so far" |
| AssistantViewModel.AssistantViewModel.TakeBlock | LLMCodeAssistant/LLMCodeAssistant/UI/ViewModel/AssistantViewModel.cs:447-467 | taking a block creates its file, adds its write to the disk and resumes the scan after the closing fence, keeping the invariant |
| AssistantViewModel.UnrequestedPathKept | LLMCodeAssistant/LLMCodeAssistant/UI/ViewModel/AssistantViewModel.cs:419-483 | a file that no request of the reply names keeps what the disk held for it |
| AssistantViewModel.ReportedFileHoldsCode | LLMCodeAssistant/LLMCodeAssistant/UI/ViewModel/AssistantViewModel.cs:453-464 | a file reported as "Created file" holds the code of its block, unless a later block names the same path |
| AssistantViewModel.GeneratedFileOnDisk | LLMCodeAssistant/LLMCodeAssistant/UI/ViewModel/AssistantViewModel.cs:425-464 | a reply in the layout the generation prompt asks for, whose one creation succeeded, leaves the trimmed path holding the code between the fences |

## Left out

- The transport to the local model is not modelled: HTTP, JSON, the endpoint, the model
  name and the sampling options. The model is a parameter. `LLMService.ContinueConversationAsync`
  itself turns a transport failure into an error text and a missing reply into
  "No response from model". To the services both are an answer, which the parameter can
  return. `Fault` stands for an exception that escapes an awaited call.
- The model's replies are not recorded into the caller's message list (LLMService.cs:132-135).
  The view model rebuilds that list from its chat messages on every send, so the appended
  turn is never seen.
- The connection check, the settings window and `OllamaConfig` are not modelled. The
  commands, the package and `INotifyPropertyChanged` are not modelled either. Only the
  guard shared by the Fix button and the Fix command is kept, as `RequestFixes`.
- Threading is not modelled: switches to the UI thread and fire-and-forget tasks. Each
  action runs to completion. `isProcessing` is true only while an action waits for the
  model. `statusTrail` is a ghost record of the statuses shown, in order, so the
  intermediate ones can be stated.
- The view model's catch blocks for analyse, fix and apply are not modelled. The
  services they call catch every exception themselves and return error text, so those
  handlers cannot run. The catch of `HandleCodeGenerationAsync` (AssistantViewModel.cs:473-482)
  is not modelled for the same reason: `CreateFileAsync` catches everything.
- `Extensions.CreateFileInProject` is file and project I/O that no core operation
  calls. It is not part of this model.
- Workspace.CreateFile: adding the new file to its project is not modelled
  (FileService.cs:136-146). A failure there still reports false with the file written,
  and the contract allows exactly that. `IsFileInProject` is a plain prefix test, so
  "C:\proj" also claims files under "C:\proj2". The model states that behaviour as it is.
- AnalysisService.ApplyFixesToActiveDocument: the status "Error applying fixes: …" of its
  own catch (AnalysisService.cs:170-173) is not produced. Only the switch to the UI thread
  (FileService.cs:83), which lies outside the update's own catch, could throw into it, and
  threading is not modelled; so the model's status is always one of the other two.
- Workspace.UpdateActiveDocument: a `Save` that throws is taken to leave the file on disk
  as it was; a save that writes part of the file and then throws is not modelled.
- The file system and the Visual Studio document are not modelled. They are the
  `Workspace` fields `active`, `disk` and the log of creation calls. An unreadable file
  in a project is `None`, and a missing sub-project is an empty one.
- AnalysisService.IsBinaryOrLargeFile, AnalysisService.Underline: lengths count Unicode
  scalar values, while .NET `Length` counts UTF-16 code units. For text outside the Basic
  Multilingual Plane the two differ, so the 100 KB limit, the one-tenth threshold and the
  underline's `path.Length + 6` are stated on the shorter length. A file of 60,000 emoji
  has a .NET length of 120,000 and is skipped; the model analyses it.
- Strings.IndexOf, Strings.StartsWith, AnalysisService.ExtractCodeBlock,
  AssistantViewModel.IsFenceLine: the source's `IndexOf(string)` and `StartsWith(string)`
  compare with the current culture, which ignores characters such as the soft hyphen
  U+00AD. The model compares ordinally, so a fence with an ignorable character inside it
  is not a fence here.
- AnalysisService.IsBinaryOrLargeFile: the floating-point comparison with `Length * 0.1` is written as
  `10 * count > length`. The two agree for every length up to the 100 KB limit: the
  double nearest `0.1` is slightly above it, so the product never falls below a whole
  `length / 10`, and it stays far closer to `length / 10` than any other whole number.
- Strings.ToLower: culture-sensitive lower-casing is ASCII only. So are
  `StringComparison.OrdinalIgnoreCase` and the regular expression's `\w`. White space
  (`Trim`, `\s`) is the .NET list of white-space code points.
- Null strings and null objects are not modelled. Every text here is a Dafny string,
  and the view model never holds null in its fields.
- AssistantViewModel.KindsOf: each line's path test and fence test are computed for all
  lines before the scan. They are pure functions of the line, so the order does not
  matter. The scan loop is split into `ScanLine` and `TakeBlock`.
- `OpenSettings` and `CheckOllamaStatusAsync` are UI and connection plumbing. They are
  not modelled.

## Findings

| source | as written | input that shows it | evidently intended | confidence | as-written member | corrected member |
|---|---|---|---|---|---|---|
| LLMCodeAssistant/LLMCodeAssistant/Services/FileService.cs:240-243 | for a physical folder, each sub-item is walked through `subItem.SubProject`, which is null for ordinary files and folders | a project with a folder `src` holding the readable file `src\a.cs` yields an empty dictionary | walk each sub-item with the `ProjectItem` overload at lines 259-290, which is otherwise never called, so files at any depth are collected | medium, not executed | FileService.WalkAsWrittenSkipsFolderFiles | FileService.WalkFindsEveryFile |
