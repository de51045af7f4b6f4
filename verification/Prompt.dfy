/** The client's start-up synchronisation: a byte-wise matcher that drains the leader's greeting. */
module Prompt {
  import opened Seqs

  const SERVER_PROMPT := "tolerex> "

  /** An occurrence of `p` in the stream ends just before position `k`. */
  predicate EndsAt(stream: string, p: string, k: int) {
    |p| <= k <= |stream| && stream[k - |p|..k] == p
  }

  /** One character enters a window of `n`: it is appended while there is room, and then pushes the oldest out. */
  function Fed(window: string, n: nat, c: char): string {
    if |window| < n || window == [] then window + [c] else window[1..] + [c]
  }

  /** The window after the first `pos` characters of the stream. */
  function Window(stream: string, pos: nat, n: nat): string
    requires pos <= |stream|
  {
    if pos == 0 then "" else Fed(Window(stream, pos - 1, n), n, stream[pos - 1])
  }

  /** The window always holds the last characters read, as many as fit. */
  lemma {:induction false} WindowIsLast(stream: string, pos: nat, n: nat)
    requires pos <= |stream| && n > 0
    ensures Window(stream, pos, n) == stream[pos - Min(pos, n)..pos]
  {
    if pos > 0 {
      WindowIsLast(stream, pos - 1, n);
    }
  }

  /** No window up to position `pos` was the prompt. */
  predicate NotYet(stream: string, p: string, pos: nat)
    requires pos <= |stream|
  {
    Window(stream, pos, |p|) != p && (pos == 0 || NotYet(stream, p, pos - 1))
  }

  /** The window decides whether the prompt has just been read. */
  lemma WindowDecides(stream: string, p: string, pos: nat)
    requires pos <= |stream| && p != []
    ensures EndsAt(stream, p, pos) <==> Window(stream, pos, |p|) == p
  {
    WindowIsLast(stream, pos, |p|);
  }

  lemma {:induction false} NotYetMeans(stream: string, p: string, pos: nat)
    requires pos <= |stream| && p != []
    ensures NotYet(stream, p, pos) <==> forall k: nat :: k <= pos ==> !EndsAt(stream, p, k)
  {
    WindowDecides(stream, p, pos);
    if pos > 0 {
      NotYetMeans(stream, p, pos - 1);
    }
  }

  /** The in-place form of `Fed`: append, or shift left by one and overwrite the last place. */
  method Feed(window: array<char>, filled: nat, c: char) returns (now: nat)
    requires filled <= window.Length && window.Length > 0
    modifies window
    ensures now == Min(filled + 1, window.Length)
    ensures window[..now] == Fed(old(window[..filled]), window.Length, c)
  {
    if filled < window.Length {
      window[filled] := c;
      now := filled + 1;
    } else {
      forall i | 0 <= i < window.Length - 1 {
        window[i] := window[i + 1];
      }
      window[window.Length - 1] := c;
      now := filled;
    }
  }

  /** The byte loop: stops when the window is the prompt, or at the end of the stream. */
  method Scan(stream: string, p: string) returns (ok: bool, consumed: nat)
    requires p != []
    ensures consumed <= |stream|
    ensures ok ==> consumed > 0 && Window(stream, consumed, |p|) == p && NotYet(stream, p, consumed - 1)
    ensures !ok ==> consumed == |stream| && NotYet(stream, p, consumed)
  {
    hide Fed;
    var window := new char[|p|];
    var filled: nat := 0;
    ghost var w := "";
    ok := false;
    consumed := 0;
    while !ok && consumed < |stream|
      invariant 0 <= consumed <= |stream|
      invariant w == Window(stream, consumed, |p|)
      invariant ok ==> consumed > 0 && w == p && NotYet(stream, p, consumed - 1)
      invariant !ok ==> NotYet(stream, p, consumed)
      invariant filled == |w| <= |p| && window[..filled] == w
      decreases |stream| - consumed
    {
      w := Fed(w, |p|, stream[consumed]);
      filled := Feed(window, filled, stream[consumed]);
      consumed := consumed + 1;
      ok := filled == |p| && window[..filled] == p;
    }
  }

  /**
   Reads until the prompt has just been read, or until the stream ends: it consumes the stream exactly
   through the first occurrence of the prompt, and fails exactly when there is none.
   */
  method DrainStartup(stream: string, p: string) returns (ok: bool, consumed: nat)
    requires p != []
    ensures ok <==> exists k: nat :: EndsAt(stream, p, k)
    ensures ok ==> EndsAt(stream, p, consumed) && forall k: nat :: EndsAt(stream, p, k) ==> consumed <= k
    ensures !ok ==> consumed == |stream|
  {
    ok, consumed := Scan(stream, p);
    WindowDecides(stream, p, consumed);
    if ok {
      NotYetMeans(stream, p, consumed - 1);
    } else {
      NotYetMeans(stream, p, consumed);
    }
  }

  // ---------------------------------------------------------------- The leader's greeting

  const RULE := "-------------------------" + "-------------------------"
  const TITLE := "TOLEREX - Leader Node" + " (Control Plane)"
  const BASICS := "Basic Commands:"
  const SET_HELP := "  SET <id> <message>" + "        Store a message"
  const BULK_HELP := "  <N> SET <message>" + "         Bulk store N messages"
  const GET_HELP := "  GET <id>           " + "       Retrieve a message"
  const UTILITY := "Utility:"
  const HELP_HELP := "  HELP               " + "       Show this help"
  const QUIT_HELP := "  QUIT | EXIT        " + "       Disconnect client"
  const EXAMPLES := "Examples:"
  const EXAMPLE_1 := "  SET 10 HELLO"
  const EXAMPLE_2 := "  1000 SET HELLO"

  const BANNER := [RULE, TITLE, RULE, "", BASICS, SET_HELP, BULK_HELP, GET_HELP, "", UTILITY, HELP_HELP,
                   QUIT_HELP, "", EXAMPLES, EXAMPLE_1, EXAMPLE_2, RULE]

  function Lines(lines: seq<string>): string {
    if lines == [] then "" else lines[0] + "\r\n" + Lines(lines[1..])
  }

  function Greeting(): string {
    Lines(BANNER) + SERVER_PROMPT
  }

  /** Nowhere does '>' follow 'x', as it does in the prompt. */
  predicate NoPrompt(s: string) {
    forall i :: 0 <= i < |s| - 1 && s[i] == 'x' ==> s[i + 1] != '>'
  }

  lemma WithoutX(a: string, b: string)
    requires 'x' !in a && 'x' !in b
    ensures NoPrompt(a + b)
  {
  }

  lemma HeadingsHaveNoPrompt()
    ensures NoPrompt(RULE) && NoPrompt(TITLE) && NoPrompt(BASICS) && NoPrompt(UTILITY) && NoPrompt("")
  {
    WithoutX("-------------------------", "-------------------------");
    WithoutX("TOLEREX - Leader Node", " (Control Plane)");
  }

  lemma CommandsHaveNoPrompt()
    ensures NoPrompt(SET_HELP) && NoPrompt(GET_HELP)
  {
    WithoutX("  SET <id> <message>", "        Store a message");
    WithoutX("  GET <id>           ", "       Retrieve a message");
  }

  lemma BulkHasNoPrompt()
    ensures NoPrompt(BULK_HELP)
  {
    WithoutX("  <N> SET <message>", "         Bulk store N messages");
  }

  lemma UtilitiesHaveNoPrompt()
    ensures NoPrompt(HELP_HELP) && NoPrompt(QUIT_HELP)
  {
    WithoutX("  HELP               ", "       Show this help");
    WithoutX("  QUIT | EXIT        ", "       Disconnect client");
  }

  lemma ExamplesHaveNoPrompt()
    ensures NoPrompt(EXAMPLES) && NoPrompt(EXAMPLE_1) && NoPrompt(EXAMPLE_2)
  {
  }

  lemma BannerHasNoPrompt()
    ensures forall line :: line in BANNER ==> NoPrompt(line)
  {
    HeadingsHaveNoPrompt();
    CommandsHaveNoPrompt();
    BulkHasNoPrompt();
    UtilitiesHaveNoPrompt();
    ExamplesHaveNoPrompt();
  }

  lemma {:induction false} LinesHaveNoPrompt(lines: seq<string>)
    requires forall line :: line in lines ==> NoPrompt(line)
    ensures NoPrompt(Lines(lines))
    ensures lines != [] ==> Lines(lines) != "" && Lines(lines)[|Lines(lines)| - 1] == '\n'
  {
    if lines != [] {
      LinesHaveNoPrompt(lines[1..]);
      JoinLine(lines[0], Lines(lines[1..]));
    }
  }

  lemma JoinLine(line: string, rest: string)
    requires NoPrompt(line) && NoPrompt(rest)
    ensures NoPrompt(line + "\r\n" + rest)
  {
    var s := line + "\r\n" + rest;
    var n := |line|;
    forall i | 0 <= i < |s| - 1 && s[i] == 'x' ensures s[i + 1] != '>' {
      if i < n {
        assert s[i] == line[i];
        assert s[n] == '\r';
      } else if i >= n + 2 {
        assert s[i] == rest[i - n - 2];
        assert s[i + 1] == rest[i - n - 1];
      }
    }
  }

  lemma PromptHasOneX(j: nat)
    requires j < |SERVER_PROMPT| && SERVER_PROMPT[j] == 'x'
    ensures j == 6
  {
  }

  /** After a text without the prompt that ends a line, the prompt first ends where it was put. */
  lemma FirstPrompt(text: string, rest: string, k: int)
    requires NoPrompt(text) && text != "" && text[|text| - 1] == '\n'
    requires EndsAt(text + SERVER_PROMPT + rest, SERVER_PROMPT, k)
    ensures |text| + |SERVER_PROMPT| <= k
  {
    var stream := text + SERVER_PROMPT + rest;
    var n := |text|;
    assert stream[k - 3] == stream[k - 9..k][6] == 'x';
    assert stream[k - 2] == stream[k - 9..k][7] == '>';
    assert forall i :: 0 <= i < n ==> stream[i] == text[i];
    if n <= k - 3 < n + 9 {
      assert stream[k - 3] == SERVER_PROMPT[k - 3 - n];
      PromptHasOneX(k - 3 - n);
    }
  }

  /** After any lines without the prompt, the prompt ends first where it was put. */
  lemma PromptAfterLines(lines: seq<string>, rest: string)
    requires lines != [] && forall line :: line in lines ==> NoPrompt(line)
    ensures var stream, at := Lines(lines) + SERVER_PROMPT + rest, |Lines(lines)| + |SERVER_PROMPT|;
            EndsAt(stream, SERVER_PROMPT, at) && forall k :: EndsAt(stream, SERVER_PROMPT, k) ==> at <= k
  {
    LinesHaveNoPrompt(lines);
    var stream := Lines(lines) + SERVER_PROMPT + rest;
    forall k | EndsAt(stream, SERVER_PROMPT, k) ensures |Lines(lines)| + |SERVER_PROMPT| <= k {
      FirstPrompt(Lines(lines), rest, k);
    }
  }

  /** On the leader's greeting, whatever follows it, draining stops exactly at the end of the prompt. */
  lemma GreetingEndsAtItsPrompt(rest: string)
    ensures EndsAt(Greeting() + rest, SERVER_PROMPT, |Greeting()|)
    ensures forall k :: EndsAt(Greeting() + rest, SERVER_PROMPT, k) ==> |Greeting()| <= k
  {
    BannerHasNoPrompt();
    PromptAfterLines(BANNER, rest);
  }

  /** The client and the leader in step: the client has consumed the greeting and nothing of what follows. */
  method SyncWithLeader(rest: string) returns (ok: bool, consumed: nat)
    ensures ok && consumed == |Greeting()|
  {
    GreetingEndsAtItsPrompt(rest);
    ok, consumed := DrainStartup(Greeting() + rest, SERVER_PROMPT);
  }
}
