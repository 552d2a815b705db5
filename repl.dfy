/**
 * Repl (src/Repl.php): how the interactive prompt decides that a line is not
 * finished and gathers the lines of one multi-line input. The lines the user
 * types are given as a sequence, in the order the driver would return them.
 */
module Repl {
  import opened Wrappers

  const PrimaryPrompt := ">>> "
  const MultilinePrompt := "... "

  /**
   * `isIncompleteInput`: whether the line asks for another one, and how many
   * trailing characters (the continuation backslash) to drop from it.
   */
  function IsIncompleteInput(input: string): (r: (bool, nat))
    ensures r.1 <= 1 && r.1 <= |input|
    ensures r.1 == 1 <==> |input| > 0 && input[|input| - 1] == '\\'
    ensures r.0 <==> (|input| > 0 &&
      (input[|input| - 1] == '{' || input[|input| - 1] == '\\' || input[0] == ' ' || input[0] == '\t'))
    ensures r.1 == 1 ==> r.0
  {
    if input == "" then (false, 0)
    else if input[|input| - 1] == '{' then (true, 0)
    else if input[|input| - 1] == '\\' then (true, 1)
    else if input[0] == '\t' || input[0] == ' ' then (true, 0)
    else (false, 0)
  }

  /** The line without its last `trim` characters. */
  function Chop(line: string, trim: nat): (chopped: string)
    requires trim <= |line|
    ensures |chopped| == |line| - trim
    ensures chopped == line[..|chopped|]
  {
    line[..|line| - trim]
  }

  /** What an incomplete line adds to the buffer. */
  function Continued(line: string): string
    requires IsIncompleteInput(line).0
  {
    Chop(line, IsIncompleteInput(line).1) + "\n"
  }

  /**
   * The buffer `gatherLines` returns for these lines and the number of lines it
   * reads, or None when the lines run out before a complete one.
   */
  function Gather(inputs: seq<string>): Option<(string, nat)>
  {
    if inputs == [] then None
    else if IsIncompleteInput(inputs[0]).0 then
      match Gather(inputs[1..])
      case None => None
      case Some(rest) => Some((Continued(inputs[0]) + rest.0, rest.1 + 1))
    else Some((inputs[0], 1))
  }

  /** `lines` already gathered from `read` lines, followed by the gathering of the rest. */
  function After(lines: string, read: nat, rest: Option<(string, nat)>): Option<(string, nat)>
  {
    match rest
    case None => None
    case Some(g) => Some((lines + g.0, read + g.1))
  }

  /**
   * `gatherLines`: prompt, read a line, and either append it (less its trim)
   * with a newline and go on, or append it verbatim and return the buffer.
   * Also gives the number of lines read and the prompts shown.
   */
  method GatherLines(inputs: seq<string>) returns (result: Option<string>, consumed: nat, prompts: seq<string>)
    ensures result.Some? <==> Gather(inputs).Some?
    ensures result.Some? ==> result.value == Gather(inputs).value.0 && consumed == Gather(inputs).value.1
    ensures result.None? ==> consumed == |inputs|
    ensures |prompts| == consumed
    ensures forall j | 0 <= j < |prompts| :: prompts[j] == if j == 0 then PrimaryPrompt else MultilinePrompt
  {
    var gathering := false;
    var lines := "";
    var i := 0;
    prompts := [];
    match Gather(inputs) {
      case None =>
      case Some(g) => assert lines + g.0 == g.0;
    }
    while i < |inputs|
      invariant 0 <= i <= |inputs|
      invariant gathering <==> i > 0
      invariant |prompts| == i
      invariant forall j | 0 <= j < i :: prompts[j] == if j == 0 then PrimaryPrompt else MultilinePrompt
      invariant Gather(inputs) == After(lines, i, Gather(inputs[i..]))
    {
      var prompt := if !gathering then PrimaryPrompt else MultilinePrompt;
      prompts := prompts + [prompt];
      var input := inputs[i];
      var incomplete := IsIncompleteInput(input);
      assert inputs[i..][1..] == inputs[i + 1..];
      if incomplete.0 {
        match Gather(inputs[i + 1..]) {
          case None =>
          case Some(g) =>
            assert lines + (Continued(input) + g.0) == lines + Chop(input, incomplete.1) + "\n" + g.0;
        }
        lines := lines + Chop(input, incomplete.1) + "\n";
        gathering := true;
        i := i + 1;
      } else {
        lines := lines + input;
        return Some(lines), i + 1, prompts;
      }
    }
    assert inputs[i..] == [];
    return None, i, prompts;
  }

  /**
   * Gathering stops at the first complete line: every line read before it
   * was incomplete. When the lines run out, none was complete.
   */
  lemma {:induction false} GatherStopsAtFirstComplete(inputs: seq<string>)
    ensures Gather(inputs).Some? ==>
      && 1 <= Gather(inputs).value.1 <= |inputs|
      && !IsIncompleteInput(inputs[Gather(inputs).value.1 - 1]).0
      && forall j | 0 <= j < Gather(inputs).value.1 - 1 :: IsIncompleteInput(inputs[j]).0
    ensures Gather(inputs).None? <==> forall j | 0 <= j < |inputs| :: IsIncompleteInput(inputs[j]).0
  {
    if inputs != [] && IsIncompleteInput(inputs[0]).0 {
      GatherStopsAtFirstComplete(inputs[1..]);
      assert forall j | 1 <= j < |inputs| :: inputs[j] == inputs[1..][j - 1];
    }
  }

  function NewlineCount(s: string): nat
  {
    if s == [] then 0 else (if s[0] == '\n' then 1 else 0) + NewlineCount(s[1..])
  }

  lemma {:induction false} NewlineCountAppend(a: string, b: string)
    ensures NewlineCount(a + b) == NewlineCount(a) + NewlineCount(b)
  {
    if a != [] {
      assert (a + b)[1..] == a[1..] + b;
      NewlineCountAppend(a[1..], b);
    } else {
      assert a + b == b;
    }
  }

  /**
   * With lines that hold no newline of their own, the buffer holds exactly one
   * newline per incomplete line: the separators `gatherLines` adds.
   */
  lemma {:induction false} OneNewlinePerContinuation(inputs: seq<string>)
    requires forall j | 0 <= j < |inputs| :: '\n' !in inputs[j]
    requires Gather(inputs).Some?
    ensures NewlineCount(Gather(inputs).value.0) == Gather(inputs).value.1 - 1
  {
    var line := inputs[0];
    if IsIncompleteInput(line).0 {
      OneNewlinePerContinuation(inputs[1..]);
      var chopped := Chop(line, IsIncompleteInput(line).1);
      NoNewlineNoCount(chopped);
      NewlineCountAppend(chopped, "\n");
      NewlineCountAppend(Continued(line), Gather(inputs[1..]).value.0);
    } else {
      NoNewlineNoCount(line);
    }
  }

  lemma {:induction false} NoNewlineNoCount(s: string)
    requires '\n' !in s
    ensures NewlineCount(s) == 0
  {
    if s != [] {
      assert '\n' !in s[1..] by {
        assert forall c | c in s[1..] :: c in s;
      }
      NoNewlineNoCount(s[1..]);
    }
  }

  /** A block opened with `{`, an indented line and the closing line, read as one input. */
  lemma BlockIsGathered()
    ensures Gather(["if (x) {", "  y = 1", "}"]) == Some(("if (x) {\n  y = 1\n}", 3))
  {
    assert ["if (x) {", "  y = 1", "}"][1..] == ["  y = 1", "}"];
    assert ["  y = 1", "}"][1..] == ["}"];
    assert IsIncompleteInput("}") == (false, 0);
    assert Gather(["}"]) == Some(("}", 1));
    assert IsIncompleteInput("  y = 1") == (true, 0);
    assert Continued("  y = 1") == "  y = 1\n";
    assert "  y = 1\n" + "}" == "  y = 1\n}";
    assert Gather(["  y = 1", "}"]) == Some(("  y = 1\n}", 2));
    assert IsIncompleteInput("if (x) {") == (true, 0);
    assert Continued("if (x) {") == "if (x) {\n";
    assert "if (x) {\n" + "  y = 1\n}" == "if (x) {\n  y = 1\n}";
  }

  /** A trailing backslash continues the line and is dropped from the buffer. */
  lemma BackslashIsDropped()
    ensures Gather(["a = 1 + \\", "2"]) == Some(("a = 1 + \n2", 2))
  {
    assert ["a = 1 + \\", "2"][1..] == ["2"];
    assert IsIncompleteInput("a = 1 + \\") == (true, 1);
    assert Chop("a = 1 + \\", 1) == "a = 1 + ";
    assert IsIncompleteInput("2") == (false, 0);
    assert Gather(["2"]) == Some(("2", 1));
    assert Continued("a = 1 + \\") == "a = 1 + \n";
    assert "a = 1 + \n" + "2" == "a = 1 + \n2";
  }
}
