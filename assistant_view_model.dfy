/** The assistant window's view model: the mode, the analysis and fix texts, the chat
    transcript and input, the status line and the busy flag, and the actions that
    update them. The editor and the file system are the Workspace, the language model
    is a Model. */
module AssistantViewModel {
  import opened Strings
  import opened FileService
  import opened LlmService
  import PromptBuilder
  import AnalysisService

  datatype AssistantMode = Analysis | Fix | Generate

  datatype ChatMessage = ChatMessage(sender: string, content: string, isUser: bool)

  // ---------------------------------------------------------------------------
  // Code-generation intent

  /** The words that mark a request for code. */
  const CodeWords: seq<string> := ["create", "generate", "build", "make", "write", "develop"]

  /** IsCodeGenerationRequest: the lower-cased message contains "create", "generate",
      "build", "make", "write" or "develop", anywhere, even inside another word. */
  function IsCodeGenerationRequest(message: string): (r: bool)
    ensures r <==> exists k :: 0 <= k < |CodeWords| && Contains(ToLower(message), CodeWords[k])
  {
    assert CodeWords[0] == "create" && CodeWords[1] == "generate" && CodeWords[2] == "build";
    assert CodeWords[3] == "make" && CodeWords[4] == "write" && CodeWords[5] == "develop";
    var lowerMessage := ToLower(message);
    Contains(lowerMessage, "create") || Contains(lowerMessage, "generate")
    || Contains(lowerMessage, "build") || Contains(lowerMessage, "make")
    || Contains(lowerMessage, "write") || Contains(lowerMessage, "develop")
  }

  /** The test ignores case. */
  lemma IntentIgnoresCase(message: string)
    ensures IsCodeGenerationRequest(ToLower(message)) == IsCodeGenerationRequest(message)
  {
    ToLowerIdempotent(message);
  }

  /** A word found in the lower-cased message is still found once text is put around
      the message. */
  lemma WordSurvivesContext(before: string, message: string, after: string, word: string)
    requires Contains(ToLower(message), word)
    ensures Contains(ToLower(before + message + after), word)
  {
    var i :| 0 <= i <= |ToLower(message)| - |word| && OccursAt(ToLower(message), word, i);
    ToLowerConcat(before, message);
    ToLowerConcat(before + message, after);
    OccursInSuffix(ToLower(before), ToLower(message), word, i);
    OccursInPrefix(ToLower(before) + ToLower(message), ToLower(after), word, |ToLower(before)| + i);
    OccursAtWitness(ToLower(before + message + after), word, |ToLower(before)| + i);
  }

  /** Text around a request does not hide it: a message that contains a request is
      one. */
  lemma IntentSurvivesContext(before: string, message: string, after: string)
    requires IsCodeGenerationRequest(message)
    ensures IsCodeGenerationRequest(before + message + after)
  {
    var lower := ToLower(message);
    if Contains(lower, "create") {
      WordSurvivesContext(before, message, after, "create");
    } else if Contains(lower, "generate") {
      WordSurvivesContext(before, message, after, "generate");
    } else if Contains(lower, "build") {
      WordSurvivesContext(before, message, after, "build");
    } else if Contains(lower, "make") {
      WordSurvivesContext(before, message, after, "make");
    } else if Contains(lower, "write") {
      WordSurvivesContext(before, message, after, "write");
    } else {
      WordSurvivesContext(before, message, after, "develop");
    }
  }

  // ---------------------------------------------------------------------------
  // The file scanner of HandleCodeGenerationAsync

  /** A line that may name a file: it has a dot and a forward or backward slash. */
  function IsPathLine(line: string): (r: bool)
    ensures r <==> '.' in line && ('/' in line || '\\' in line)
  {
    ContainsChar(line, '.');
    ContainsChar(line, '/');
    ContainsChar(line, '\\');
    Contains(line, ".") && (Contains(line, "/") || Contains(line, "\\"))
  }

  /** A line that opens or closes a code block: trimmed, it starts with a fence, that
      is, the fence follows nothing but white space. */
  function IsFenceLine(line: string): (r: bool)
    ensures r <==> exists i :: 0 <= i <= |line| - 3 && AllWhiteSpace(line[..i]) && OccursAt(line, PromptBuilder.Fence, i)
  {
    TrimStartsWithMark(line, PromptBuilder.Fence);
    StartsWith(Trim(line), PromptBuilder.Fence)
  }

  /** The two tests the scanner makes on a line. */
  datatype LineKind = LineKind(trimmed: string, mayBePath: bool, isFence: bool)

  function KindOf(line: string): LineKind
  {
    LineKind(Trim(line), IsPathLine(line), IsFenceLine(line))
  }

  /** The kind of each line, in order. */
  function KindsOf(lines: seq<string>): (kinds: seq<LineKind>)
    ensures |kinds| == |lines|
  {
    seq(|lines|, k requires 0 <= k < |lines| => KindOf(lines[k]))
  }

  lemma KindAt(lines: seq<string>, k: int)
    requires 0 <= k < |lines|
    ensures KindsOf(lines)[k] == KindOf(lines[k])
  {
  }

  /** The first fence line at or after `start`, or -1. */
  function CloseFence(kinds: seq<LineKind>, start: int): (end: int)
    requires 0 <= start <= |kinds|
    ensures end == -1 || start <= end < |kinds|
    decreases |kinds| - start
  {
    if start == |kinds| then -1
    else if kinds[start].isFence then start
    else CloseFence(kinds, start + 1)
  }

  /** CloseFence finds the first fence line: the line it returns is one, and no line
      before it (no line at all, when it returns -1) is. */
  lemma {:induction false} CloseFenceIsFirst(kinds: seq<LineKind>, start: int)
    requires 0 <= start <= |kinds|
    ensures var end := CloseFence(kinds, start);
      (end == -1 || kinds[end].isFence)
      && forall k :: start <= k < |kinds| && (end == -1 || k < end) ==> !kinds[k].isFence
    decreases |kinds| - start
  {
    if start < |kinds| && !kinds[start].isFence {
      CloseFenceIsFirst(kinds, start + 1);
    }
  }

  /** Conversely, the first fence line (or -1) is what CloseFence returns. */
  lemma CloseFenceOfFirst(kinds: seq<LineKind>, start: int, end: int)
    requires 0 <= start <= |kinds|
    requires end == -1 || (start <= end < |kinds| && kinds[end].isFence)
    requires forall k :: start <= k < |kinds| && (end == -1 || k < end) ==> !kinds[k].isFence
    ensures CloseFence(kinds, start) == end
  {
    CloseFenceIsFirst(kinds, start);
  }

  /** A block found by the scanner: the index of its path line and of its closing
      fence line. */
  datatype Block = Block(pathLine: nat, closeLine: nat)

  /** A path line, an opening fence line right after it, at least one line of code,
      and the first fence line after those as the closing one. */
  predicate IsBlock(kinds: seq<LineKind>, b: Block)
  {
    b.pathLine + 2 < b.closeLine < |kinds|
    && kinds[b.pathLine].mayBePath && kinds[b.pathLine + 1].isFence
    && b.closeLine == CloseFence(kinds, b.pathLine + 2)
  }

  /** The blocks the scan finds from line `i` on, in order: it tries each line as a path
      line and, after a block, goes on with the line after its closing fence. */
  function Blocks(kinds: seq<LineKind>, i: nat): (bs: seq<Block>)
    requires i <= |kinds|
    ensures forall k :: 0 <= k < |bs| ==> i <= bs[k].pathLine && bs[k].pathLine + 2 < bs[k].closeLine < |kinds|
    decreases |kinds| - i
  {
    if i == |kinds| then []
    else if kinds[i].mayBePath && i + 1 < |kinds| && kinds[i + 1].isFence then
      var end := CloseFence(kinds, i + 2);
      if end > i + 2 then [Block(i, end)] + Blocks(kinds, end + 1)
      else Blocks(kinds, i + 1)
    else Blocks(kinds, i + 1)
  }

  /** The blocks do not overlap: each one starts after the previous one closed, so no
      line inside a block is taken for a path line. */
  lemma {:induction false} BlocksAreDisjoint(kinds: seq<LineKind>, i: nat)
    requires i <= |kinds|
    ensures InOrder(Blocks(kinds, i))
    decreases |kinds| - i
  {
    if i < |kinds| {
      if kinds[i].mayBePath && i + 1 < |kinds| && kinds[i + 1].isFence && CloseFence(kinds, i + 2) > i + 2 {
        var end := CloseFence(kinds, i + 2);
        BlocksAreDisjoint(kinds, end + 1);
        InOrderTake(kinds, i, end);
      } else {
        BlocksAreDisjoint(kinds, i + 1);
        InOrderSkip(kinds, i);
      }
    }
  }

  /** Every block the scan finds is one: a path line, an opening fence right after it,
      code, and the first fence line after the code as its closing line. */
  lemma {:induction false} BlocksAreBlocks(kinds: seq<LineKind>, i: nat)
    requires i <= |kinds|
    ensures forall k :: 0 <= k < |Blocks(kinds, i)| ==> IsBlock(kinds, Blocks(kinds, i)[k])
    decreases |kinds| - i
  {
    if i < |kinds| {
      if kinds[i].mayBePath && i + 1 < |kinds| && kinds[i + 1].isFence && CloseFence(kinds, i + 2) > i + 2 {
        var end := CloseFence(kinds, i + 2);
        BlocksAreBlocks(kinds, end + 1);
        BlocksFrom(kinds, i, end, end + 1);
        assert IsBlock(kinds, Block(i, end));
      } else {
        BlocksAreBlocks(kinds, i + 1);
        BlocksSkip(kinds, i);
      }
    }
  }

  lemma InOrderTake(kinds: seq<LineKind>, i: nat, end: int)
    requires i < |kinds| && kinds[i].mayBePath && i + 1 < |kinds| && kinds[i + 1].isFence
    requires end == CloseFence(kinds, i + 2) > i + 2
    requires InOrder(Blocks(kinds, end + 1))
    ensures InOrder(Blocks(kinds, i))
  {
    BlocksFrom(kinds, i, end, end + 1);
    InOrderCons(Block(i, end), Blocks(kinds, end + 1));
  }

  lemma InOrderSkip(kinds: seq<LineKind>, i: nat)
    requires i < |kinds|
    requires !(kinds[i].mayBePath && i + 1 < |kinds| && kinds[i + 1].isFence && CloseFence(kinds, i + 2) > i + 2)
    requires InOrder(Blocks(kinds, i + 1))
    ensures InOrder(Blocks(kinds, i))
  {
    BlocksSkip(kinds, i);
  }

  /** Each block closes before the next one starts. */
  predicate InOrder(bs: seq<Block>)
  {
    forall j, k :: 0 <= j < k < |bs| ==> bs[j].closeLine < bs[k].pathLine
  }

  lemma InOrderCons(b: Block, rest: seq<Block>)
    requires InOrder(rest)
    requires forall k :: 0 <= k < |rest| ==> b.closeLine < rest[k].pathLine
    ensures InOrder([b] + rest)
  {
    var bs := [b] + rest;
    forall j, k | 0 <= j < k < |bs| ensures bs[j].closeLine < bs[k].pathLine {
      assert bs[k] == rest[k - 1];
      if j > 0 {
        assert bs[j] == rest[j - 1];
      }
    }
  }

  /** Whether line `p` lies inside one of the blocks, from its path line to its
      closing fence. */
  predicate Covered(bs: seq<Block>, p: int)
  {
    exists k :: 0 <= k < |bs| && bs[k].pathLine <= p <= bs[k].closeLine
  }

  /** Nothing is missed: every line at or after `i` where a block could start lies
      inside one of the blocks found. */
  lemma {:induction false} BlocksMissNothing(kinds: seq<LineKind>, i: nat, p: nat)
    requires i <= p < |kinds|
    requires kinds[p].mayBePath && p + 1 < |kinds| && kinds[p + 1].isFence && CloseFence(kinds, p + 2) > p + 2
    ensures Covered(Blocks(kinds, i), p)
    decreases |kinds| - i
  {
    if kinds[i].mayBePath && i + 1 < |kinds| && kinds[i + 1].isFence && CloseFence(kinds, i + 2) > i + 2 {
      var end := CloseFence(kinds, i + 2);
      if end < p {
        BlocksMissNothing(kinds, end + 1, p);
      }
      CoveredTake(kinds, i, end, p);
    } else {
      BlocksMissNothing(kinds, i + 1, p);
      CoveredSkip(kinds, i, p);
    }
  }

  lemma CoveredTake(kinds: seq<LineKind>, i: nat, end: int, p: int)
    requires i < |kinds| && kinds[i].mayBePath && i + 1 < |kinds| && kinds[i + 1].isFence
    requires end == CloseFence(kinds, i + 2) > i + 2
    requires i <= p <= end || Covered(Blocks(kinds, end + 1), p)
    ensures Covered(Blocks(kinds, i), p)
  {
    BlocksFrom(kinds, i, end, end + 1);
    if i <= p <= end {
      CoveredHead(Block(i, end), Blocks(kinds, end + 1), p);
    } else {
      CoveredTail(Block(i, end), Blocks(kinds, end + 1), p);
    }
  }

  lemma CoveredSkip(kinds: seq<LineKind>, i: nat, p: int)
    requires i < |kinds|
    requires !(kinds[i].mayBePath && i + 1 < |kinds| && kinds[i + 1].isFence && CloseFence(kinds, i + 2) > i + 2)
    requires Covered(Blocks(kinds, i + 1), p)
    ensures Covered(Blocks(kinds, i), p)
  {
    BlocksSkip(kinds, i);
  }

  lemma CoveredHead(b: Block, rest: seq<Block>, p: int)
    requires b.pathLine <= p <= b.closeLine
    ensures Covered([b] + rest, p)
  {
    assert ([b] + rest)[0] == b;
  }

  lemma CoveredTail(b: Block, rest: seq<Block>, p: int)
    requires Covered(rest, p)
    ensures Covered([b] + rest, p)
  {
    var k :| 0 <= k < |rest| && rest[k].pathLine <= p <= rest[k].closeLine;
    assert ([b] + rest)[k + 1] == rest[k];
  }

  /** A file to create: the path, and the code to write into it. */
  datatype FileRequest = FileRequest(path: string, code: string)

  /** The request of a block: the trimmed path line, and the lines strictly between the
      fences joined with NewLine. */
  function RequestOf(lines: seq<string>, kinds: seq<LineKind>, b: Block): FileRequest
    requires |kinds| == |lines| && b.pathLine + 2 <= b.closeLine <= |lines|
  {
    FileRequest(kinds[b.pathLine].trimmed, Join(lines[b.pathLine + 2..b.closeLine], NewLine))
  }

  /** The requests of the blocks, in order. */
  function RequestsOf(lines: seq<string>, kinds: seq<LineKind>, bs: seq<Block>): (rs: seq<FileRequest>)
    requires |kinds| == |lines|
    requires forall k :: 0 <= k < |bs| ==> bs[k].pathLine + 2 <= bs[k].closeLine <= |lines|
    ensures |rs| == |bs|
  {
    if bs == [] then [] else [RequestOf(lines, kinds, bs[0])] + RequestsOf(lines, kinds, bs[1..])
  }

  lemma {:induction false} RequestsOfAt(lines: seq<string>, kinds: seq<LineKind>, bs: seq<Block>, k: int)
    requires |kinds| == |lines|
    requires forall k :: 0 <= k < |bs| ==> bs[k].pathLine + 2 <= bs[k].closeLine <= |lines|
    requires 0 <= k < |bs|
    ensures RequestsOf(lines, kinds, bs)[k] == RequestOf(lines, kinds, bs[k])
  {
    if k > 0 {
      RequestsOfAt(lines, kinds, bs[1..], k - 1);
    }
  }

  /** The files a reply asks for, in the order they appear in it. */
  function FileRequests(response: string): seq<FileRequest>
  {
    var lines := SplitLines(response);
    RequestsOf(lines, KindsOf(lines), Blocks(KindsOf(lines), 0))
  }

  /** The request a creation carries out: the file it wrote and what it wrote. */
  function Carried(c: Creation): FileRequest
  {
    FileRequest(c.path, c.content)
  }

  function CarriedAll(cs: seq<Creation>): (rs: seq<FileRequest>)
    ensures |rs| == |cs|
  {
    if cs == [] then [] else CarriedAll(cs[..|cs| - 1]) + [Carried(cs[|cs| - 1])]
  }

  /** The creations carry out the requests one for one, in order. */
  predicate Requested(cs: seq<Creation>, rs: seq<FileRequest>)
  {
    CarriedAll(cs) == rs
  }

  function CreatedMessage(path: string): ChatMessage
  {
    ChatMessage("System", "Created file: " + path, false)
  }

  /** One chat message per creation that succeeded, in order; failures add none. */
  function CreatedMessages(cs: seq<Creation>): (ms: seq<ChatMessage>)
    ensures |ms| <= |cs|
  {
    if cs == [] then []
    else
      var last := cs[|cs| - 1];
      CreatedMessages(cs[..|cs| - 1]) + (if last.ok() then [CreatedMessage(last.path)] else [])
  }

  /** The code of a block, split back into lines, gives exactly the lines between the
      fences: none of them is blank, and none is lost or merged. */
  lemma RequestCodeHasNoBlankLines(response: string, k: nat)
    requires k < |FileRequests(response)|
    ensures var lines := SplitLines(response);
      var b := Blocks(KindsOf(lines), 0)[k];
      SplitLines(FileRequests(response)[k].code) == lines[b.pathLine + 2..b.closeLine]
  {
    var lines := SplitLines(response);
    var bs := Blocks(KindsOf(lines), 0);
    FileRequestsOfBlocks(response);
    BlockCodeLines(lines, KindsOf(lines), bs, k);
  }

  lemma FileRequestsOfBlocks(response: string)
    ensures var lines := SplitLines(response);
      FileRequests(response) == RequestsOf(lines, KindsOf(lines), Blocks(KindsOf(lines), 0))
  {
  }

  lemma BlockCodeLines(lines: seq<string>, kinds: seq<LineKind>, bs: seq<Block>, k: nat)
    requires |kinds| == |lines|
    requires forall m :: 0 <= m < |lines| ==> lines[m] != "" && NoLineBreak(lines[m])
    requires forall j :: 0 <= j < |bs| ==> bs[j].pathLine + 2 <= bs[j].closeLine <= |lines|
    requires k < |bs|
    ensures SplitLines(RequestsOf(lines, kinds, bs)[k].code) == lines[bs[k].pathLine + 2..bs[k].closeLine]
  {
    RequestsOfAt(lines, kinds, bs, k);
    SplitJoinRoundTrip(lines[bs[k].pathLine + 2..bs[k].closeLine]);
  }

  /** A line without a backquote is never taken for a fence line. */
  lemma TextIsNoFence(line: string)
    requires '`' !in line
    ensures !IsFenceLine(line)
  {
    forall i | 0 <= i <= |line| - 3 ensures !OccursAt(line, PromptBuilder.Fence, i) {
      assert line[i..i + 3][0] == line[i];
    }
  }

  /** A reply without a fence line after a path line asks for no file. */
  lemma NoFenceNoFile()
    ensures FileRequests("notes/readme.txt\njust some text") == []
  {
    var lines := ["notes/readme.txt", "just some text"];
    TwoLines("notes/readme.txt", "just some text");
    assert "notes/readme.txt" + ['\n'] + "just some text" == "notes/readme.txt\njust some text";
    NoFenceNoBlocks();
  }

  lemma TwoLines(a: string, b: string)
    requires a != "" && NoLineBreak(a) && b != "" && NoLineBreak(b)
    ensures SplitLines(a + ['\n'] + b) == [a, b]
  {
    SplitFromAtBreak(a, '\n', b, "");
    SplitSingleLine(a);
    SplitSingleLine(b);
  }

  lemma NoFenceNoBlocks()
    ensures Blocks(KindsOf(["notes/readme.txt", "just some text"]), 0) == []
  {
    var lines := ["notes/readme.txt", "just some text"];
    TextIsNoFence("just some text");
    KindAt(lines, 1);
    var kinds := KindsOf(lines);
    assert !kinds[1].isFence;
    assert Blocks(kinds, 1) == [];
  }

  /** Round trip with the generation prompt, which asks for the file path followed by
      the code in a fenced block: a reply in that form, lines joined with NewLine, asks
      for exactly that file with exactly that code. */
  lemma GeneratedFileRoundTrip(path: string, body: seq<string>)
    requires path != "" && NoLineBreak(path) && IsPathLine(path)
    requires |body| > 0
    requires forall k :: 0 <= k < |body| ==> body[k] != "" && NoLineBreak(body[k]) && !IsFenceLine(body[k])
    ensures FileRequests(Join([path, PromptBuilder.Fence] + body + [PromptBuilder.Fence], NewLine))
      == [FileRequest(Trim(path), Join(body, NewLine))]
  {
    GeneratedLinesSplit(path, body);
    GeneratedBlock(path, body);
    GeneratedRequest(path, body);
  }

  lemma GeneratedLinesSplit(path: string, body: seq<string>)
    requires path != "" && NoLineBreak(path)
    requires forall k :: 0 <= k < |body| ==> body[k] != "" && NoLineBreak(body[k])
    ensures var lines := [path, PromptBuilder.Fence] + body + [PromptBuilder.Fence];
      SplitLines(Join(lines, NewLine)) == lines
  {
    var lines := [path, PromptBuilder.Fence] + body + [PromptBuilder.Fence];
    assert forall k :: 0 <= k < |lines| ==> lines[k] != "" && NoLineBreak(lines[k]);
    SplitJoinRoundTrip(lines);
  }

  lemma GeneratedRequest(path: string, body: seq<string>)
    ensures var lines := [path, PromptBuilder.Fence] + body + [PromptBuilder.Fence];
      RequestsOf(lines, KindsOf(lines), [Block(0, |body| + 2)]) == [FileRequest(Trim(path), Join(body, NewLine))]
  {
    var lines := [path, PromptBuilder.Fence] + body + [PromptBuilder.Fence];
    KindAt(lines, 0);
    assert lines[2..|body| + 2] == body;
  }

  /** The lines of a generated file form one block, from the path line to the last. */
  lemma GeneratedBlock(path: string, body: seq<string>)
    requires IsPathLine(path)
    requires forall k :: 0 <= k < |body| ==> !IsFenceLine(body[k])
    requires |body| > 0
    ensures var lines := [path, PromptBuilder.Fence] + body + [PromptBuilder.Fence];
      Blocks(KindsOf(lines), 0) == [Block(0, |body| + 2)]
  {
    var lines := [path, PromptBuilder.Fence] + body + [PromptBuilder.Fence];
    GeneratedKinds(path, body);
    SingleBlock(KindsOf(lines), |body| + 2);
  }

  lemma GeneratedKinds(path: string, body: seq<string>)
    requires IsPathLine(path)
    requires forall k :: 0 <= k < |body| ==> !IsFenceLine(body[k])
    ensures var kinds := KindsOf([path, PromptBuilder.Fence] + body + [PromptBuilder.Fence]);
      |kinds| == |body| + 3 && kinds[0].mayBePath && kinds[1].isFence && kinds[|body| + 2].isFence
      && forall m :: 2 <= m < |body| + 2 ==> !kinds[m].isFence
  {
    var fence := PromptBuilder.Fence;
    var lines := [path, fence] + body + [fence];
    var end := |body| + 2;
    TrimOfTrimmed(fence);
    forall m | 2 <= m < end ensures !KindsOf(lines)[m].isFence {
      BodyLineAt(path, body, m);
    }
  }

  lemma BodyLineAt(path: string, body: seq<string>, m: int)
    requires 2 <= m < |body| + 2
    ensures ([path, PromptBuilder.Fence] + body + [PromptBuilder.Fence])[m] == body[m - 2]
  {
  }

  /** A path line, a fence line, code lines without a fence and a fence line as the
      last line: one block. */
  lemma SingleBlock(kinds: seq<LineKind>, end: nat)
    requires 2 < end && |kinds| == end + 1
    requires kinds[0].mayBePath && kinds[1].isFence && kinds[end].isFence
    requires forall m :: 2 <= m < end ==> !kinds[m].isFence
    ensures Blocks(kinds, 0) == [Block(0, end)]
  {
    CloseFenceOfFirst(kinds, 2, end);
    assert Blocks(kinds, end + 1) == [];
    BlocksFrom(kinds, 0, end, end + 1);
  }

  /** One step of the scan: line `i` does not start a block, and what is left to
      request is what the scan finds from the next line on. */
  lemma ScanSkip(lines: seq<string>, kinds: seq<LineKind>, i: nat, created: seq<Creation>)
    requires |kinds| == |lines| && i < |kinds|
    requires !(kinds[i].mayBePath && i + 1 < |kinds| && kinds[i + 1].isFence && CloseFence(kinds, i + 2) > i + 2)
    requires RequestsOf(lines, kinds, Blocks(kinds, 0)) == CarriedAll(created) + RequestsOf(lines, kinds, Blocks(kinds, i))
    ensures RequestsOf(lines, kinds, Blocks(kinds, 0)) == CarriedAll(created) + RequestsOf(lines, kinds, Blocks(kinds, i + 1))
  {
    BlocksSkip(kinds, i);
  }

  lemma RequestsOfCons(lines: seq<string>, kinds: seq<LineKind>, b: Block, rest: seq<Block>)
    requires |kinds| == |lines|
    requires b.pathLine + 2 <= b.closeLine <= |lines|
    requires forall k :: 0 <= k < |rest| ==> rest[k].pathLine + 2 <= rest[k].closeLine <= |lines|
    ensures RequestsOf(lines, kinds, [b] + rest) == [RequestOf(lines, kinds, b)] + RequestsOf(lines, kinds, rest)
  {
    assert ([b] + rest)[1..] == rest;
  }

  lemma CarriedAllSnoc(created: seq<Creation>, c: Creation)
    ensures CarriedAll(created + [c]) == CarriedAll(created) + [Carried(c)]
  {
    assert (created + [c])[..|created|] == created;
  }

  lemma Reassociate<T>(a: seq<T>, x: T, b: seq<T>)
    ensures a + ([x] + b) == (a + [x]) + b
  {
  }

  /** The blocks from a line that does not start a block are those from the next line. */
  lemma BlocksSkip(kinds: seq<LineKind>, i: nat)
    requires i < |kinds|
    requires !(kinds[i].mayBePath && i + 1 < |kinds| && kinds[i + 1].isFence && CloseFence(kinds, i + 2) > i + 2)
    ensures Blocks(kinds, i) == Blocks(kinds, i + 1)
  {
  }

  /** The blocks from a line that starts a block: that block, then the blocks after
      its closing fence. */
  lemma BlocksFrom(kinds: seq<LineKind>, i: nat, end: int, next: nat)
    requires i < |kinds| && kinds[i].mayBePath && i + 1 < |kinds| && kinds[i + 1].isFence
    requires end == CloseFence(kinds, i + 2) > i + 2 && next == end + 1
    ensures Blocks(kinds, i) == [Block(i, end)] + Blocks(kinds, next)
  {
    assert Blocks(kinds, i) == [Block(i, end)] + Blocks(kinds, end + 1);
  }

  /** One step of the scan: line `i` starts a block, which closes at `end`, and the
      creation `c` carries out its request; the scan goes on after the closing fence. */
  lemma ScanTake(lines: seq<string>, kinds: seq<LineKind>, i: nat, end: int, next: nat, created: seq<Creation>, c: Creation)
    requires |kinds| == |lines| && i < |kinds|
    requires kinds[i].mayBePath && i + 1 < |kinds| && kinds[i + 1].isFence
    requires end == CloseFence(kinds, i + 2) > i + 2 && next == end + 1
    requires RequestsOf(lines, kinds, Blocks(kinds, 0)) == CarriedAll(created) + RequestsOf(lines, kinds, Blocks(kinds, i))
    requires Carried(c) == RequestOf(lines, kinds, Block(i, end))
    ensures RequestsOf(lines, kinds, Blocks(kinds, 0)) == CarriedAll(created + [c]) + RequestsOf(lines, kinds, Blocks(kinds, next))
  {
    var b := Block(i, end);
    var rest := Blocks(kinds, next);
    BlocksFrom(kinds, i, end, next);
    RequestsOfCons(lines, kinds, b, rest);
    CarriedAllSnoc(created, c);
    Reassociate(CarriedAll(created), Carried(c), RequestsOf(lines, kinds, rest));
  }

  /** A creation that succeeded adds its message; one that failed adds none. */
  lemma CreatedMessagesStep(created: seq<Creation>, c: Creation)
    ensures CreatedMessages(created + [c])
      == CreatedMessages(created) + (if c.ok() then [CreatedMessage(c.path)] else [])
  {
    assert (created + [c])[..|created|] == created;
  }

  /** The k-th request carried out is the one the k-th creation carries. */
  lemma {:induction false} CarriedAllAt(cs: seq<Creation>, k: nat)
    requires k < |cs|
    ensures CarriedAll(cs)[k] == Carried(cs[k])
  {
    if k < |cs| - 1 {
      CarriedAllAt(cs[..|cs| - 1], k);
    }
  }

  /** A file that no request names keeps what the disk held for it. */
  lemma UnrequestedPathKept(disk: map<string, string>, cs: seq<Creation>, rs: seq<FileRequest>, p: string)
    requires Requested(cs, rs)
    requires forall k :: 0 <= k < |rs| ==> rs[k].path != p
    ensures p in Written(disk, cs) <==> p in disk
    ensures p in disk ==> Written(disk, cs)[p] == disk[p]
  {
    forall k | 0 <= k < |cs| ensures cs[k].path != p {
      CarriedAllAt(cs, k);
    }
    WrittenKeepsOthers(disk, cs, p);
  }

  /** A file reported as created holds the code of its request, unless a later request
      names the same path. */
  lemma ReportedFileHoldsCode(disk: map<string, string>, cs: seq<Creation>, rs: seq<FileRequest>, k: nat)
    requires Requested(cs, rs)
    requires k < |cs| && cs[k].ok()
    requires forall j :: k < j < |rs| ==> rs[j].path != rs[k].path
    ensures rs[k].path in Written(disk, cs) && Written(disk, cs)[rs[k].path] == rs[k].code
  {
    CarriedAllAt(cs, k);
    forall j | k < j < |cs| ensures cs[j].path != cs[k].path {
      CarriedAllAt(cs, j);
    }
    CreatedFileHolds(disk, cs, k);
  }

  /** A reply in the layout the generation prompt asks for, whose one creation
      succeeded, leaves the trimmed path holding the code between the fences. */
  lemma GeneratedFileOnDisk(path: string, body: seq<string>, disk: map<string, string>, cs: seq<Creation>)
    requires path != "" && NoLineBreak(path) && IsPathLine(path)
    requires |body| > 0
    requires forall k :: 0 <= k < |body| ==> body[k] != "" && NoLineBreak(body[k]) && !IsFenceLine(body[k])
    requires Requested(cs, FileRequests(Join([path, PromptBuilder.Fence] + body + [PromptBuilder.Fence], NewLine)))
    requires |cs| > 0 && cs[0].ok()
    ensures Trim(path) in Written(disk, cs) && Written(disk, cs)[Trim(path)] == Join(body, NewLine)
  {
    GeneratedFileRoundTrip(path, body);
    ReportedFileHoldsCode(disk, cs, [FileRequest(Trim(path), Join(body, NewLine))], 0);
  }

  // ---------------------------------------------------------------------------
  // The view model

  /** The conversation sent for the chat: every message of the transcript, as "user"
      when the user wrote it and as "assistant" otherwise (assistant and system
      messages alike). */
  function Transcript(messages: seq<ChatMessage>): (turns: seq<Turn>)
    ensures |turns| == |messages|
    ensures forall k :: 0 <= k < |turns| ==>
      turns[k].content == messages[k].content
      && (turns[k].role == "user" <==> messages[k].isUser)
      && (turns[k].role == "user" || turns[k].role == "assistant")
  {
    seq(|messages|, k requires 0 <= k < |messages| =>
      Turn(if messages[k].isUser then "user" else "assistant", messages[k].content))
  }

  /** The welcome message: the assistant's, naming the model right after its
      greeting. */
  function Welcome(modelName: string): (m: ChatMessage)
    ensures m.sender == "Assistant" && !m.isUser
    ensures StartsWith(m.content, WelcomeHead)
    ensures OccursAt(m.content, modelName, |WelcomeHead|)
  {
    ChatMessage("Assistant", WelcomeHead + modelName + WelcomeTail, false)
  }

  const WelcomeHead: string := "Hello! I'm your Local LLM Code Assistant using "
  const WelcomeTail: string :=
    ". How can I help you today? You can ask me to analyze your code, suggest fixes, or help you generate new code."

  const PleaseAnalyzeFirst: string := "Please analyze the code first."

  class AssistantViewModel {
    var currentMode: AssistantMode
    var analysisResult: string
    var fixedCode: string
    var chatInput: string
    var statusMessage: string
    var isProcessing: bool
    var chatMessages: seq<ChatMessage>
    var modelName: string
    /** Every status shown, in order, including the ones shown only while an action
        waits for the model. */
    ghost var statusTrail: seq<string>
    const workspace: Workspace

    /** The initial state: analysis mode, nothing analysed or fixed, no input, "Ready",
        not busy, and the welcome message naming the model. */
    constructor (modelName: string, workspace: Workspace)
      ensures currentMode == Analysis && analysisResult == "" && fixedCode == ""
      ensures chatInput == "" && statusMessage == "Ready" && !isProcessing
      ensures chatMessages == [Welcome(modelName)] && this.modelName == modelName
      ensures statusTrail == ["Ready"] && this.workspace == workspace
    {
      currentMode := Analysis;
      analysisResult := "";
      fixedCode := "";
      chatInput := "";
      statusMessage := "Ready";
      statusTrail := ["Ready"];
      isProcessing := false;
      chatMessages := [Welcome(modelName)];
      this.modelName := modelName;
      this.workspace := workspace;
    }

    function HasFixedCode(): (r: bool)
      reads this
      ensures r <==> fixedCode != ""
    {
      fixedCode != ""
    }

    /** HasChatInput: when it is false the input is empty, so sending would do
        nothing; the converse fails for input made only of white space. */
    function HasChatInput(): (r: bool)
      reads this
      ensures r <==> chatInput != ""
      ensures !r ==> AllWhiteSpace(chatInput)
    {
      chatInput != ""
    }

    method SetMode(mode: AssistantMode)
      modifies this`currentMode
      ensures currentMode == mode
    {
      currentMode := mode;
    }

    /** AnalyzeActiveDocumentAsync: busy while the service works, then the report and
        "Analysis complete". */
    method AnalyzeActiveDocument(model: Model)
      modifies this`analysisResult, this`statusMessage, this`isProcessing, this`statusTrail
      ensures analysisResult == AnalysisService.AnalyzeActiveDocument(workspace, model)
      ensures statusMessage == "Analysis complete" && !isProcessing
      ensures statusTrail == old(statusTrail) + ["Analyzing code...", "Analysis complete"]
    {
      isProcessing := true;
      statusMessage := "Analyzing code...";
      statusTrail := statusTrail + [statusMessage];
      analysisResult := AnalysisService.AnalyzeActiveDocument(workspace, model);
      statusMessage := "Analysis complete";
      statusTrail := statusTrail + [statusMessage];
      isProcessing := false;
    }

    /** GenerateFixesAsync: the fix for the current analysis, then "Fixes generated". */
    method GenerateFixes(model: Model)
      modifies this`fixedCode, this`statusMessage, this`isProcessing, this`statusTrail
      ensures fixedCode == AnalysisService.GenerateFixesForActiveDocument(workspace, model, analysisResult)
      ensures statusMessage == "Fixes generated" && !isProcessing
      ensures statusTrail == old(statusTrail) + ["Generating fixes...", "Fixes generated"]
    {
      isProcessing := true;
      statusMessage := "Generating fixes...";
      statusTrail := statusTrail + [statusMessage];
      fixedCode := AnalysisService.GenerateFixesForActiveDocument(workspace, model, analysisResult);
      statusMessage := "Fixes generated";
      statusTrail := statusTrail + [statusMessage];
      isProcessing := false;
    }

    /** The Fix button and the Fix command: without an analysis they only show a notice;
        otherwise they switch to fix mode and generate fixes. */
    method RequestFixes(model: Model) returns (notice: Option<string>)
      modifies this`currentMode, this`fixedCode, this`statusMessage, this`isProcessing, this`statusTrail
      ensures old(analysisResult) == "" ==> notice == Some(PleaseAnalyzeFirst) && unchanged(this)
      ensures old(analysisResult) != "" ==>
        notice == None && currentMode == Fix && !isProcessing
        && fixedCode == AnalysisService.GenerateFixesForActiveDocument(workspace, model, analysisResult)
        && statusMessage == "Fixes generated"
        && statusTrail == old(statusTrail) + ["Generating fixes...", "Fixes generated"]
    {
      if analysisResult == "" {
        return Some(PleaseAnalyzeFirst);
      }
      SetMode(Fix);
      GenerateFixes(model);
      notice := None;
    }

    /** ApplyFixesAsync: the status is the service's message. */
    method ApplyFixes()
      modifies this`statusMessage, this`isProcessing, this`statusTrail, workspace
      ensures statusMessage == AnalysisService.FixesApplied || statusMessage == AnalysisService.FixesNotApplied
      ensures Updated(old(workspace.active), old(workspace.disk), AnalysisService.ExtractCodeBlock(fixedCode),
                      statusMessage == AnalysisService.FixesApplied, workspace.active, workspace.disk)
      ensures workspace.log == old(workspace.log)
      ensures !isProcessing
      ensures statusTrail == old(statusTrail) + ["Applying fixes...", statusMessage]
    {
      isProcessing := true;
      statusMessage := "Applying fixes...";
      statusTrail := statusTrail + [statusMessage];
      var result := AnalysisService.ApplyFixesToActiveDocument(workspace, fixedCode);
      statusMessage := result;
      statusTrail := statusTrail + [statusMessage];
      isProcessing := false;
    }

    /** SendChatMessageAsync. Blank input changes nothing. Otherwise the message is added
        as the user's and the input cleared, the whole transcript goes to the model, and
        then: on a fault, one System error message; on a reply, the files it asks for
        are created when the message asked for code, one message per file created, and
        then the reply itself. */
    method SendChatMessage(model: Model)
      modifies this`chatMessages, this`chatInput, this`statusMessage, this`isProcessing, this`statusTrail, workspace
      ensures AllWhiteSpace(old(chatInput)) ==> unchanged(this) && unchanged(workspace)
      ensures |old(workspace.log)| <= |workspace.log| && workspace.log[..|old(workspace.log)|] == old(workspace.log)
      ensures workspace.active == old(workspace.active)
      ensures !AllWhiteSpace(old(chatInput)) ==>
        var sent := old(chatMessages) + [ChatMessage("You", old(chatInput), true)];
        var reply := model(ContinueConversation(Transcript(sent)));
        var created := workspace.log[|old(workspace.log)|..];
        chatInput == "" && !isProcessing
        && statusTrail == old(statusTrail) + ["Processing message...", statusMessage]
        && (reply.Fault? ==>
              chatMessages == sent + [ChatMessage("System", "Error: " + reply.message, false)]
              && statusMessage == "Error processing message" && unchanged(workspace))
        && (reply.Answer? ==>
              chatMessages == sent + CreatedMessages(created) + [ChatMessage("Assistant", reply.text, false)]
              && statusMessage == "Ready"
              && (IsCodeGenerationRequest(old(chatInput)) ==>
                    Requested(created, FileRequests(reply.text))
                    && workspace.disk == Written(old(workspace.disk), created))
              && (!IsCodeGenerationRequest(old(chatInput)) ==> unchanged(workspace)))
    {
      if AllWhiteSpace(chatInput) {
        return;
      }
      isProcessing := true;
      statusMessage := "Processing message...";
      statusTrail := statusTrail + [statusMessage];
      var userMessage := chatInput;
      chatMessages := chatMessages + [ChatMessage("You", userMessage, true)];
      chatInput := "";
      var messages := Transcript(chatMessages);
      var reply := model(ContinueConversation(messages));
      if reply.Fault? {
        chatMessages := chatMessages + [ChatMessage("System", "Error: " + reply.message, false)];
        statusMessage := "Error processing message";
        statusTrail := statusTrail + [statusMessage];
        isProcessing := false;
        return;
      }
      ShowAnswer(userMessage, reply.text);
    }

    /** The end of SendChatMessageAsync once the model has answered: the files the
        answer asks for when the message asked for code, then the answer itself. */
    method ShowAnswer(userMessage: string, response: string)
      modifies this`chatMessages, this`statusMessage, this`isProcessing, this`statusTrail, workspace
      ensures |old(workspace.log)| <= |workspace.log| && workspace.log[..|old(workspace.log)|] == old(workspace.log)
      ensures workspace.active == old(workspace.active)
      ensures var created := workspace.log[|old(workspace.log)|..];
        chatMessages == old(chatMessages) + CreatedMessages(created) + [ChatMessage("Assistant", response, false)]
        && (IsCodeGenerationRequest(userMessage) ==>
              Requested(created, FileRequests(response)) && workspace.disk == Written(old(workspace.disk), created))
        && (!IsCodeGenerationRequest(userMessage) ==> unchanged(workspace))
      ensures statusMessage == "Ready" && !isProcessing && statusTrail == old(statusTrail) + ["Ready"]
    {
      if IsCodeGenerationRequest(userMessage) {
        HandleCodeGeneration(response);
      } else {
        assert workspace.log[|workspace.log|..] == [];
      }
      chatMessages := chatMessages + [ChatMessage("Assistant", response, false)];
      statusMessage := "Ready";
      statusTrail := statusTrail + [statusMessage];
      isProcessing := false;
    }

    /** HandleCodeGenerationAsync: the reply is split into its non-empty lines, each
        line is classified, and the lines are scanned for files to create. */
    method HandleCodeGeneration(response: string)
      modifies this`chatMessages, workspace
      ensures |old(workspace.log)| <= |workspace.log| && workspace.log[..|old(workspace.log)|] == old(workspace.log)
      ensures Requested(workspace.log[|old(workspace.log)|..], FileRequests(response))
      ensures chatMessages == old(chatMessages) + CreatedMessages(workspace.log[|old(workspace.log)|..])
      ensures workspace.disk == Written(old(workspace.disk), workspace.log[|old(workspace.log)|..])
      ensures workspace.active == old(workspace.active)
    {
      var lines := SplitLines(response);
      var kinds := KindsOf(lines);
      CreateRequestedFiles(lines, kinds);
    }

    /** The inner loop of HandleCodeGenerationAsync: the first fence line from `start`
        on, or -1. */
    static method FindClosingFence(kinds: seq<LineKind>, start: nat) returns (end: int)
      requires start <= |kinds|
      ensures end == CloseFence(kinds, start)
    {
      end := -1;
      var j := start;
      while j < |kinds|
        invariant start <= j <= |kinds|
        invariant end == -1
        invariant forall k :: start <= k < j ==> !kinds[k].isFence
      {
        if kinds[j].isFence {
          end := j;
          break;
        }
        j := j + 1;
      }
      CloseFenceOfFirst(kinds, start, end);
    }

    /** The body of HandleCodeGenerationAsync's loop for one block: the trimmed path
        line names the file, the lines between the fences joined by new lines are its
        code, and a message reports the file when it was created. */
    method CreateBlockFile(lines: seq<string>, kinds: seq<LineKind>, b: Block) returns (success: bool, ghost c: Creation)
      requires |kinds| == |lines| && b.pathLine + 2 <= b.closeLine <= |lines|
      modifies this`chatMessages, workspace
      ensures Carried(c) == RequestOf(lines, kinds, b) && c.ok() == success
      ensures workspace.log == old(workspace.log) + [c]
      ensures workspace.disk == Write(old(workspace.disk), c)
      ensures chatMessages == old(chatMessages) + (if success then [CreatedMessage(c.path)] else [])
      ensures workspace.active == old(workspace.active)
    {
      var potentialPath := kinds[b.pathLine].trimmed;
      var code := Join(lines[b.pathLine + 2..b.closeLine], NewLine);
      success, c := workspace.CreateFile(potentialPath, code);
      if success {
        chatMessages := chatMessages + [CreatedMessage(potentialPath)];
      }
    }

    /** The loop of HandleCodeGenerationAsync: one file creation per block, in order,
        and one chat message per creation that succeeded. */
    method CreateRequestedFiles(lines: seq<string>, kinds: seq<LineKind>)
      requires |kinds| == |lines|
      modifies this`chatMessages, workspace
      ensures |old(workspace.log)| <= |workspace.log| && workspace.log[..|old(workspace.log)|] == old(workspace.log)
      ensures Requested(workspace.log[|old(workspace.log)|..], RequestsOf(lines, kinds, Blocks(kinds, 0)))
      ensures chatMessages == old(chatMessages) + CreatedMessages(workspace.log[|old(workspace.log)|..])
      ensures workspace.disk == Written(old(workspace.disk), workspace.log[|old(workspace.log)|..])
      ensures workspace.active == old(workspace.active)
    {
      ghost var created: seq<Creation> := [];
      var i := 0;
      while i < |lines|
        invariant 0 <= i <= |lines|
        invariant RequestsOf(lines, kinds, Blocks(kinds, 0)) == CarriedAll(created) + RequestsOf(lines, kinds, Blocks(kinds, i))
        invariant workspace.log == old(workspace.log) + created
        invariant workspace.disk == Written(old(workspace.disk), created)
        invariant chatMessages == old(chatMessages) + CreatedMessages(created)
        invariant workspace.active == old(workspace.active)
      {
        i, created := ScanLine(lines, kinds, i, old(workspace.log), old(workspace.disk), old(chatMessages), created);
      }
      assert workspace.log[|old(workspace.log)|..] == created;
    }

    /** One turn of HandleCodeGenerationAsync's loop, from line `i`: either line `i`
        starts a block, whose file is created and the scan goes on after its closing
        fence, or the scan goes on with the next line. `created` are the creations of
        the turns before, made after `log0` and `messages0`. */
    method ScanLine(lines: seq<string>, kinds: seq<LineKind>, i: nat,
                    ghost log0: seq<Creation>, ghost disk0: map<string, string>, ghost messages0: seq<ChatMessage>,
                    ghost created: seq<Creation>)
      returns (next: nat, ghost created': seq<Creation>)
      requires |kinds| == |lines| && i < |lines|
      requires RequestsOf(lines, kinds, Blocks(kinds, 0)) == CarriedAll(created) + RequestsOf(lines, kinds, Blocks(kinds, i))
      requires workspace.log == log0 + created
      requires workspace.disk == Written(disk0, created)
      requires chatMessages == messages0 + CreatedMessages(created)
      modifies this`chatMessages, workspace
      ensures i < next <= |lines|
      ensures RequestsOf(lines, kinds, Blocks(kinds, 0)) == CarriedAll(created') + RequestsOf(lines, kinds, Blocks(kinds, next))
      ensures workspace.log == log0 + created'
      ensures workspace.disk == Written(disk0, created')
      ensures chatMessages == messages0 + CreatedMessages(created')
      ensures workspace.active == old(workspace.active)
    {
      if kinds[i].mayBePath {
        if i + 1 < |lines| && kinds[i + 1].isFence {
          var start := i + 2;
          var end := FindClosingFence(kinds, start);
          if end > start {
            next, created' := TakeBlock(lines, kinds, i, end, log0, disk0, messages0, created);
            return;
          }
        }
      }
      ScanSkip(lines, kinds, i, created);
      created' := created;
      next := i + 1;
    }

    /** The turn for a block from line `i` to the closing fence at `end`. */
    method TakeBlock(lines: seq<string>, kinds: seq<LineKind>, i: nat, end: int,
                     ghost log0: seq<Creation>, ghost disk0: map<string, string>, ghost messages0: seq<ChatMessage>,
                     ghost created: seq<Creation>)
      returns (next: nat, ghost created': seq<Creation>)
      requires |kinds| == |lines| && i < |lines|
      requires kinds[i].mayBePath && i + 1 < |kinds| && kinds[i + 1].isFence
      requires end == CloseFence(kinds, i + 2) > i + 2
      requires RequestsOf(lines, kinds, Blocks(kinds, 0)) == CarriedAll(created) + RequestsOf(lines, kinds, Blocks(kinds, i))
      requires workspace.log == log0 + created
      requires workspace.disk == Written(disk0, created)
      requires chatMessages == messages0 + CreatedMessages(created)
      modifies this`chatMessages, workspace
      ensures next == end + 1 <= |lines|
      ensures RequestsOf(lines, kinds, Blocks(kinds, 0)) == CarriedAll(created') + RequestsOf(lines, kinds, Blocks(kinds, next))
      ensures workspace.log == log0 + created'
      ensures workspace.disk == Written(disk0, created')
      ensures chatMessages == messages0 + CreatedMessages(created')
      ensures workspace.active == old(workspace.active)
    {
      var success, c := CreateBlockFile(lines, kinds, Block(i, end));
      next := end + 1;
      ScanTake(lines, kinds, i, end, next, created, c);
      CreatedMessagesStep(created, c);
      WrittenSnoc(disk0, created, c);
      created' := created + [c];
      assert workspace.log == log0 + created';
    }
  }
}
