/**
 * The OpenAI chat client of openai/client.go, without its HTTP exchange: both calls refuse an
 * empty API key before any request is built, and `GroupDiffIntoCommits` cuts the reply into
 * lines, drops one leading `-` and the surrounding white space from each, and keeps the lines
 * that are neither empty nor a code fence.
 *
 * The chat completion itself (request encoding, status, JSON decoding, the "no response" case)
 * is the oracle `chat`, which maps the key and the two messages to the first choice's content or
 * an error.
 */
module OpenAIClient {
  import opened Results
  import opened Strings

  /** One chat request: the key it is sent with, the system message and the user message. */
  datatype Request = Request(apiKey: string, system: string, user: string)

  type Chat = Request -> Result<string, string>

  const MissingKeyMessage: string := "missing OpenAI API key.\nRun:\n  gix config set-key <your-api-key>"
  const MissingKey: string := "missing OpenAI API key"

  const CommitSystem: string :=
    "You are a concise assistant that only returns a one-line, conventional commit message. No explanations, markdown, or commentary."
  const CommitPrompt: string :=
    "Write a single-line conventional commit message that describes the following Git diff. Only return the commit message. Do not include explanations, newlines, or formatting beyond the message itself. Diff:\n\n"

  const GroupSystem: string := "You are an expert software engineer helping organize Git history."

  /** The code fence the reply lines are checked against. */
  const Fence: string := "```"

  // ---------------------------------------------------------------------------------------------
  // The reply lines

  /** A reply line with one leading `-` removed, then trimmed. */
  function Clean(line: string): (clean: string)
    ensures |clean| <= |line|
    ensures clean == [] || (!IsSpace(clean[0]) && !IsSpace(clean[|clean| - 1]))
  {
    TrimSpace(TrimPrefix(line, "-"))
  }

  /** Whether a cleaned line is kept: it is not empty and does not open a code fence. */
  predicate Keeps(clean: string) {
    clean != "" && !HasPrefix(clean, Fence)
  }

  /** The cleaned lines that are kept, in the order of `lines`. */
  function Kept(lines: seq<string>): (kept: seq<string>)
    ensures |kept| <= |lines|
    ensures forall k :: 0 <= k < |kept| ==> Keeps(kept[k])
  {
    if lines == [] then []
    else
      var rest := Kept(lines[..|lines| - 1]);
      var clean := Clean(lines[|lines| - 1]);
      if Keeps(clean) then rest + [clean] else rest
  }

  /** The loop of `GroupDiffIntoCommits` over the lines of the trimmed reply. */
  method CleanReply(raw: string) returns (result: seq<string>)
    ensures result == Kept(Split(TrimSpace(raw), '\n'))
  {
    var lines := Split(TrimSpace(raw), '\n');
    result := [];
    for i := 0 to |lines|
      invariant result == Kept(lines[..i])
    {
      var clean := TrimSpace(TrimPrefix(lines[i], "-"));
      assert lines[..i + 1][..i] == lines[..i];
      if clean != "" && !HasPrefix(clean, Fence) {
        result := result + [clean];
      }
    }
    assert lines[..|lines|] == lines;
  }

  /** Keeping lines commutes with putting line lists one after the other: the order is kept. */
  lemma {:induction false} KeptAppend(a: seq<string>, b: seq<string>)
    ensures Kept(a + b) == Kept(a) + Kept(b)
    decreases |b|
  {
    if b == [] {
      assert a + b == a;
    } else {
      var b' := b[..|b| - 1];
      assert (a + b)[..|a + b| - 1] == a + b';
      assert (a + b)[|a + b| - 1] == b[|b| - 1];
      KeptAppend(a, b');
    }
  }

  /** A single line is kept, cleaned, exactly when its cleaned form qualifies. */
  lemma KeptOne(line: string)
    ensures Kept([line]) == if Keeps(Clean(line)) then [Clean(line)] else []
  {
    assert [line][..0] == [];
  }

  /**
   * Every kept element is the cleaned form of a line of the reply; it is not empty, holds no line
   * feed, neither starts nor ends with white space, and does not start with a code fence.
   */
  lemma {:induction false} KeptElements(lines: seq<string>)
    requires NoNewlines(lines)
    ensures forall k :: 0 <= k < |Kept(lines)| ==>
      var x := Kept(lines)[k];
      x != "" && !HasPrefix(x, Fence) && '\n' !in x && !IsSpace(x[0]) && !IsSpace(x[|x| - 1]) &&
      exists j :: 0 <= j < |lines| && x == Clean(lines[j])
    decreases |lines|
  {
    if lines != [] {
      var n := |lines| - 1;
      var front := lines[..n];
      assert NoNewlines(front) by {
        assert forall j :: 0 <= j < n ==> front[j] == lines[j];
      }
      KeptElements(front);
      var clean := Clean(lines[n]);
      forall k | 0 <= k < |Kept(lines)|
        ensures var x := Kept(lines)[k];
          x != "" && !HasPrefix(x, Fence) && '\n' !in x && !IsSpace(x[0]) && !IsSpace(x[|x| - 1]) &&
          exists j :: 0 <= j < |lines| && x == Clean(lines[j])
      {
        if k < |Kept(front)| {
          var x := Kept(front)[k];
          var j :| 0 <= j < n && x == Clean(front[j]);
          assert front[j] == lines[j];
        } else {
          assert Kept(lines)[k] == clean;
          CleanedHasNoNewline(lines[n]);
        }
      }
    }
  }

  /** Cleaning a line takes a piece of it, so it adds no line feed. */
  lemma CleanedHasNoNewline(line: string)
    requires '\n' !in line
    ensures '\n' !in Clean(line)
  {
    var t := TrimPrefix(line, "-");
    assert t == line[|line| - |t|..];
    TrimSpaceInfix(t);
    var i := |t| - |DropSpaces(t)|;
    assert Clean(line) == t[i..i + |Clean(line)|];
  }

  /** The lines `CleanReply` splits the reply into hold no line feed. */
  lemma ReplyLines(raw: string)
    ensures NoNewlines(Split(TrimSpace(raw), '\n'))
  {
    SplitSeparatorFree(TrimSpace(raw), '\n');
  }

  // ---------------------------------------------------------------------------------------------
  // The two calls

  /**
   * `GenerateCommitMessage`: with an empty key it fails before any request is made; otherwise
   * it makes exactly one request, whose user message ends with the diff, and returns its reply.
   */
  method GenerateCommitMessage(apiKey: string, diff: string, chat: Chat)
    returns (r: Result<string, string>, requests: seq<Request>)
    ensures apiKey == "" ==> r == Err(MissingKeyMessage) && requests == []
    ensures apiKey != "" ==>
      |requests| == 1 && requests[0].apiKey == apiKey && requests[0].system == CommitSystem &&
      requests[0].user == CommitPrompt + diff && r == chat(requests[0])
  {
    if apiKey == "" {
      return Err(MissingKeyMessage), [];
    }
    var request := Request(apiKey, CommitSystem, CommitPrompt + diff);
    requests := [request];
    r := chat(request);
  }

  /**
   * `GroupDiffIntoCommits`: with an empty key it fails before any request is made; otherwise it
   * makes exactly one request, whose user message is the fixed grouping instructions followed by
   * the diff, and returns the kept lines of the reply, or the request's error.
   */
  method GroupDiffIntoCommits(apiKey: string, diff: string, instructions: string, chat: Chat)
    returns (r: Result<seq<string>, string>, requests: seq<Request>)
    ensures apiKey == "" ==> r == Err(MissingKey) && requests == []
    ensures apiKey != "" ==>
      |requests| == 1 && requests[0].apiKey == apiKey && requests[0].system == GroupSystem &&
      requests[0].user == instructions + diff &&
      (chat(requests[0]).Err? ==> r == Err(chat(requests[0]).error)) &&
      (chat(requests[0]).Ok? ==> r == Ok(Kept(Split(TrimSpace(chat(requests[0]).value), '\n'))))
  {
    if apiKey == "" {
      return Err(MissingKey), [];
    }
    var request := Request(apiKey, GroupSystem, instructions + diff);
    requests := [request];
    var reply := chat(request);
    if reply.Err? {
      return Err(reply.error), requests;
    }
    var lines := CleanReply(reply.value);
    r := Ok(lines);
  }
}
