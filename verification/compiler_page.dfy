/**
 * The stand-alone compiler page: the starter program shown for each
 * language, the guard in front of the run button, how a reply is shown, and
 * the Tab key in the editor.
 */
module CompilerPage {
  import opened Wrappers
  import opened Text

  /** The starter programs, one per language of the selector, line by line. */
  const JAVASCRIPT_LINES: seq<string> := [
    "// JavaScript Playground",
    "console.log(\"Hello, World!\");",
    "",
    "function sum(a, b) {",
    "    return a + b;",
    "}",
    "",
    "console.log(\"Sum of 5 + 3 =\", sum(5, 3));"]

  const PYTHON_LINES: seq<string> := [
    "# Python Playground",
    "print(\"Hello, World!\")",
    "",
    "def factorial(n):",
    "    if n == 0:",
    "        return 1",
    "    else:",
    "        return n * factorial(n-1)",
    "",
    "print(\"Factorial of 5 is:\", factorial(5))"]

  const JAVA_LINES: seq<string> := [
    "// Java Playground",
    "// Main class must be named 'Main'",
    "public class Main {",
    "    public static void main(String[] args) {",
    "        System.out.println(\"Hello, World!\");",
    "        ",
    "        int[] numbers = {1, 2, 3, 4, 5};",
    "        int sum = 0;",
    "        for(int n : numbers) {",
    "            sum += n;",
    "        }",
    "        System.out.println(\"Sum of array: \" + sum);",
    "    }",
    "}"]

  const CPP_LINES: seq<string> := [
    "// C++ Playground",
    "#include <iostream>",
    "#include <vector>",
    "#include <numeric>",
    "",
    "int main() {",
    "    std::cout << \"Hello, World!\" << std::endl;",
    "    ",
    "    std::vector<int> v = {1, 2, 3, 4, 5};",
    "    int sum = std::accumulate(v.begin(), v.end(), 0);",
    "    ",
    "    std::cout << \"Sum of vector: \" << sum << std::endl;",
    "    return 0;",
    "}"]

  const C_LINES: seq<string> := [
    "// C Playground",
    "#include <stdio.h>",
    "",
    "int main() {",
    "    printf(\"Hello, World!\\n\");",
    "    ",
    "    int i;",
    "    for(i = 0; i < 5; i++) {",
    "        printf(\"Count: %d\\n\", i);",
    "    }",
    "    ",
    "    return 0;",
    "}"]

  /** The lines joined with line feeds, as a template literal spanning them reads. */
  function Unlines(lines: seq<string>): (r: string)
    ensures lines != [] ==> |lines[0]| <= |r| && r[..|lines[0]|] == lines[0]
  {
    if |lines| <= 1 then (if lines == [] then "" else lines[0])
    else lines[0] + "\n" + Unlines(lines[1..])
  }

  const EMPTY_CODE: string := "Please enter some code to run."
  const NO_OUTPUT: string := "No output returned."
  const RUN_FAILED: string := "Error executing code. Please try again."
  /** What a missing entry of the snippet table renders as in the editor. */
  const UNDEFINED: string := "undefined"
  const TAB_SPACES: string := "    "

  /** The starter program of `language`, absent for a language the table lacks. */
  function DefaultCode(language: string): (r: Option<string>)
    ensures r.Some? <==> language in {"javascript", "python", "java", "cpp", "c"}
    ensures r.Some? ==> |r.value| > 0 && !IsJsSpace(r.value[0])
  {
    match language
    case "javascript" => Starter(JAVASCRIPT_LINES)
    case "python" => Starter(PYTHON_LINES)
    case "java" => Starter(JAVA_LINES)
    case "cpp" => Starter(CPP_LINES)
    case "c" => Starter(C_LINES)
    case _ => None
  }

  /** A starter program: each one opens with a comment line. */
  function Starter(lines: seq<string>): (r: Option<string>)
    requires lines != [] && |lines[0]| > 0 && lines[0][0] in "/#"
    ensures r.Some? && |r.value| > 0 && !IsJsSpace(r.value[0])
  {
    var program := Unlines(lines);
    assert program[0] == program[..|lines[0]|][0];
    Some(program)
  }

  /**
   * The language selector's change handler: the editor is overwritten with
   * the starter program, whatever was typed; a language without one shows
   * "undefined".
   */
  function OnLanguageChange(language: string): (code: string)
    ensures DefaultCode(language).Some? ==> code == DefaultCode(language).value
    ensures DefaultCode(language).None? ==> code == UNDEFINED
    ensures JsTrim(code) != []
  {
    match DefaultCode(language)
    case Some(snippet) => snippet
    case None => UNDEFINED
  }

  /** What a click on the run button does: an error message, or a request. */
  datatype RunAction = ShowError(message: string) | Execute(code: string, language: string)

  /** The run button's guard: empty or whitespace-only code is not sent. */
  function OnRun(code: string, language: string): (a: RunAction)
    ensures a.ShowError? <==> forall k :: 0 <= k < |code| ==> IsJsSpace(code[k])
    ensures a.ShowError? ==> a.message == EMPTY_CODE
    ensures a.Execute? ==> a.code == code && a.language == language
  {
    if JsTrim(code) == [] then ShowError(EMPTY_CODE) else Execute(code, language)
  }

  /**
   * Whatever language is picked, the program put in the editor passes the
   * run guard and is sent as shown.
   */
  lemma StarterProgramsRun(language: string)
    ensures OnRun(OnLanguageChange(language), language) == Execute(OnLanguageChange(language), language)
  {
  }

  /** The server's reply, or `Unreachable` when the request or its decoding threw. */
  datatype Reply = Reply(output: Option<string>, error: bool) | Unreachable

  /** The output console: its text and whether it carries the error style. */
  datatype Console = Console(text: string, error: bool)

  /**
   * How a reply is shown: a non-empty output verbatim, styled as an error
   * iff the reply says so; otherwise a fixed notice.
   */
  function ShowReply(reply: Reply): (shown: Console)
    ensures reply.Unreachable? ==> shown == Console(RUN_FAILED, true)
    ensures reply.Reply? && reply.output.Some? && reply.output.value != [] ==>
      shown == Console(reply.output.value, reply.error)
    ensures reply.Reply? && (reply.output.None? || reply.output.value == []) ==>
      shown == Console(NO_OUTPUT, false)
  {
    match reply
    case Unreachable => Console(RUN_FAILED, true)
    case Reply(output, error) =>
      if output.Some? && output.value != [] then Console(output.value, error) else Console(NO_OUTPUT, false)
  }

  /**
   * After a run the console is never blank; it carries the error style iff
   * the server was unreachable or reported an error along with some output;
   * and any text other than the two notices is the server's output.
   */
  lemma ConsoleAfterRun(reply: Reply)
    ensures ShowReply(reply).text != []
    ensures ShowReply(reply).error <==>
      reply.Unreachable? || (reply.output.Some? && reply.output.value != [] && reply.error)
    ensures ShowReply(reply).text != NO_OUTPUT && ShowReply(reply).text != RUN_FAILED ==>
      reply.Reply? && reply.output == Some(ShowReply(reply).text)
  {
  }

  /** The editor's text and selection, in characters. */
  datatype Editor = Editor(value: string, selectionStart: int, selectionEnd: int)

  /** The selection a text area can hold. */
  predicate ValidSelection(e: Editor) {
    0 <= e.selectionStart <= e.selectionEnd <= |e.value|
  }

  /** Clamps an index into `0..len`. */
  function Clamp(i: int, len: nat): (r: nat)
    ensures r <= len
    ensures 0 <= i <= len ==> r == i
  {
    if i < 0 then 0 else if i > len then len else i
  }

  /**
   * JavaScript's `s.substring(from, to)`: both ends clamped into the string,
   * and swapped when they come in the wrong order.
   */
  function Substring(s: string, from: int, to: int): (r: string)
    ensures 0 <= from <= to <= |s| ==> r == s[from..to]
  {
    var a, b := Clamp(from, |s|), Clamp(to, |s|);
    if a <= b then s[a..b] else s[b..a]
  }

  /**
   * The Tab key: the selection is replaced by four spaces and the caret is
   * put just after them (a text area clamps the caret to its length).
   */
  function Tab(e: Editor): (r: Editor)
    ensures ValidSelection(e) ==>
      && |r.value| == |e.value| - (e.selectionEnd - e.selectionStart) + 4
      && r.value[..e.selectionStart] == e.value[..e.selectionStart]
      && r.value[e.selectionStart..e.selectionStart + 4] == TAB_SPACES
      && r.value[e.selectionStart + 4..] == e.value[e.selectionEnd..]
      && r.selectionStart == r.selectionEnd == e.selectionStart + 4
      && ValidSelection(r)
  {
    var value := Substring(e.value, 0, e.selectionStart) + TAB_SPACES + Substring(e.value, e.selectionEnd, |e.value|);
    var caret := Clamp(e.selectionStart + 4, |value|);
    Editor(value, caret, caret)
  }

  /** Two presses of Tab insert eight spaces in place of the selection. */
  lemma TabTwice(e: Editor)
    requires ValidSelection(e)
    ensures var r := Tab(Tab(e));
      && r.value == e.value[..e.selectionStart] + TAB_SPACES + TAB_SPACES + e.value[e.selectionEnd..]
      && r.selectionStart == r.selectionEnd == e.selectionStart + 8
  {
    var once := Tab(e);
    var s := e.selectionStart;
    assert once.value == e.value[..s] + TAB_SPACES + e.value[e.selectionEnd..];
    var twice := Tab(once);
    assert twice.value == once.value[..s + 4] + TAB_SPACES + once.value[s + 4..];
    assert once.value[..s + 4] == e.value[..s] + TAB_SPACES;
  }
}
