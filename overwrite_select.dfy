/**
 * The overwrite arbiter (src/overwrite_select.rs): the run-wide overwrite policy, the
 * operator's five possible answers, the line-oriented prompt, and the decision whether a
 * conversion goes ahead when its destination may already exist.
 *
 * The console is a scripted sequence of input lines. The policy, which the source updates
 * through a `&mut` reference, is passed in and the new policy handed back.
 */
module OverwriteSelect {
  import opened Wrappers

  /** The run-wide setting: always overwrite, never overwrite, or ask for each file. */
  datatype OverallOverwriteSelect = Yes | No | Undecided

  /** One answer of the operator to the prompt. */
  datatype OverwriteSelect = Yes | No | AllYes | AllNo | Exit

  /** Rust's `char::is_whitespace`: the characters with the Unicode White_Space property. */
  predicate IsWhitespace(c: char) {
    var n := c as int;
    || 0x09 <= n <= 0x0D || n == 0x20 || n == 0x85 || n == 0xA0 || n == 0x1680
    || 0x2000 <= n <= 0x200A || n == 0x2028 || n == 0x2029 || n == 0x202F || n == 0x205F
    || n == 0x3000
  }

  predicate AllWhitespace(s: string) {
    forall k :: 0 <= k < |s| ==> IsWhitespace(s[k])
  }

  /** `s` neither starts nor ends with white space. */
  predicate Trimmed(s: string) {
    s == [] || (!IsWhitespace(s[0]) && !IsWhitespace(s[|s| - 1]))
  }

  /** Drops the leading white space (`str::trim_start`). */
  function TrimStart(s: string): string {
    if s != [] && IsWhitespace(s[0]) then TrimStart(s[1..]) else s
  }

  /** Drops the trailing white space (`str::trim_end`). */
  function TrimEnd(s: string): string {
    if s != [] && IsWhitespace(s[|s| - 1]) then TrimEnd(s[..|s| - 1]) else s
  }

  /** Rust's `str::trim`: the white space at both ends removed. */
  function Trim(s: string): string {
    TrimEnd(TrimStart(s))
  }

  /** `TrimStart` gives the suffix of `s` after its leading white space. */
  lemma {:induction false} TrimStartSpec(s: string)
    ensures var r := TrimStart(s);
      && |r| <= |s| && r == s[|s| - |r|..]
      && AllWhitespace(s[..|s| - |r|])
      && (r == [] || !IsWhitespace(r[0]))
  {
    if s != [] && IsWhitespace(s[0]) {
      TrimStartSpec(s[1..]);
      var r := TrimStart(s[1..]);
      assert s[..|s| - |r|] == [s[0]] + s[1..][..|s| - 1 - |r|];
    }
  }

  /** `TrimEnd` gives the prefix of `s` before its trailing white space. */
  lemma {:induction false} TrimEndSpec(s: string)
    ensures var r := TrimEnd(s);
      && |r| <= |s| && r == s[..|r|]
      && AllWhitespace(s[|r|..])
      && (r == [] || !IsWhitespace(r[|r| - 1]))
  {
    if s != [] && IsWhitespace(s[|s| - 1]) {
      TrimEndSpec(s[..|s| - 1]);
      var r := TrimEnd(s[..|s| - 1]);
      assert s[|r|..] == s[..|s| - 1][|r|..] + [s[|s| - 1]];
    }
  }

  /** `Trim(s)` is the slice of `s` between its leading and its trailing white space, and it
      neither starts nor ends with white space. */
  lemma TrimSpec(s: string)
    ensures var i := |s| - |TrimStart(s)|; var t := Trim(s);
      && 0 <= i && i + |t| <= |s| && t == s[i..i + |t|]
      && AllWhitespace(s[..i]) && AllWhitespace(s[i + |t|..])
      && Trimmed(t)
  {
    var u := TrimStart(s);
    TrimStartSpec(s);
    TrimEndSpec(u);
    var i := |s| - |u|;
    var t := Trim(s);
    assert t == u[..|t|];
    assert u[|t|..] == s[i + |t|..];
    if t != [] {
      assert t[0] == u[0];
    }
  }

  lemma {:induction false} TrimStartSkipsWhitespace(w: string, x: string)
    requires AllWhitespace(w)
    ensures TrimStart(w + x) == TrimStart(x)
  {
    if w != [] {
      assert (w + x)[0] == w[0] && IsWhitespace(w[0]);
      assert (w + x)[1..] == w[1..] + x;
      assert TrimStart(w + x) == TrimStart(w[1..] + x);
      TrimStartSkipsWhitespace(w[1..], x);
    } else {
      assert w + x == x;
    }
  }

  lemma {:induction false} TrimEndSkipsWhitespace(x: string, w: string)
    requires AllWhitespace(w)
    ensures TrimEnd(x + w) == TrimEnd(x)
  {
    if w != [] {
      assert (x + w)[|x + w| - 1] == w[|w| - 1] && IsWhitespace(w[|w| - 1]);
      assert (x + w)[..|x + w| - 1] == x + w[..|w| - 1];
      assert TrimEnd(x + w) == TrimEnd(x + w[..|w| - 1]);
      TrimEndSkipsWhitespace(x, w[..|w| - 1]);
    } else {
      assert x + w == x;
    }
  }

  /** Trimming gives back exactly the text between the surrounding white space. */
  lemma TrimSurrounded(w1: string, t: string, w2: string)
    requires AllWhitespace(w1) && AllWhitespace(w2) && Trimmed(t)
    ensures Trim(w1 + t + w2) == t
  {
    assert w1 + t + w2 == w1 + (t + w2);
    TrimStartSkipsWhitespace(w1, t + w2);
    if t == [] {
      assert t + w2 == w2 + [];
      TrimStartSkipsWhitespace(w2, []);
      assert Trim(w1 + t + w2) == TrimEnd([]);
    } else {
      assert (t + w2)[0] == t[0];
      assert TrimStart(t + w2) == t + w2;
      assert TrimEnd(t) == t;
    }
    TrimEndSkipsWhitespace(t, w2);
  }

  /** The literal the operator types for each answer. */
  function Token(selection: OverwriteSelect): (token: string)
    ensures Trimmed(token) && token != []
  {
    match selection
    case Yes => "yes"
    case No => "no"
    case AllYes => "all-yes"
    case AllNo => "all-no"
    case Exit => "exit"
  }

  /** The match on the trimmed line: one of the five literals, or nothing. */
  function Parse(s: string): (r: Option<OverwriteSelect>)
    ensures r.Some? <==> s in {"yes", "no", "all-yes", "all-no", "exit"}
    ensures r.Some? ==> Token(r.value) == s
  {
    match s
    case "yes" => Some(OverwriteSelect.Yes)
    case "no" => Some(OverwriteSelect.No)
    case "all-yes" => Some(AllYes)
    case "all-no" => Some(AllNo)
    case "exit" => Some(Exit)
    case _ => None
  }

  /** How one raw input line (as `read_line` returns it, newline included) is understood. */
  function Recognize(line: string): Option<OverwriteSelect> {
    Parse(Trim(line))
  }

  /** A line is understood as an answer exactly when, trimmed, it is that answer's literal. */
  lemma RecognizeTyped(w1: string, selection: OverwriteSelect, w2: string)
    requires AllWhitespace(w1) && AllWhitespace(w2)
    ensures Recognize(w1 + Token(selection) + w2) == Some(selection)
  {
    var t := Token(selection);
    assert !IsWhitespace(t[0]) && !IsWhitespace(t[|t| - 1]);
    TrimSurrounded(w1, t, w2);
  }

  /** What the prompt obtains from the remaining input: an answer and the lines after it,
      or nothing when the input runs out first. */
  datatype Answer = Answered(selection: OverwriteSelect, rest: seq<string>) | InputExhausted

  /** The first recognised line answers the prompt, and the lines after it are left. */
  function FirstAnswer(lines: seq<string>): (r: Answer)
    ensures r.Answered? ==> |r.rest| < |lines|
  {
    if lines == [] then InputExhausted
    else if Recognize(lines[0]).Some? then Answered(Recognize(lines[0]).value, lines[1..])
    else FirstAnswer(lines[1..])
  }

  /** The answer is the first recognised line, every line before it is rejected, and the
      rest of the input starts right after it; when the input runs out, every line was
      rejected. */
  lemma {:induction false} FirstAnswerIsFirstRecognised(lines: seq<string>)
    ensures var r := FirstAnswer(lines);
      && (r.Answered? ==>
            var k := |lines| - |r.rest| - 1;
            && r.rest == lines[k + 1..]
            && Recognize(lines[k]) == Some(r.selection)
            && forall j {:trigger Recognize(lines[j])} :: 0 <= j < k ==> Recognize(lines[j]).None?)
      && (r.InputExhausted? ==>
            forall j {:trigger Recognize(lines[j])} :: 0 <= j < |lines| ==> Recognize(lines[j]).None?)
  {
    if lines != [] && Recognize(lines[0]).None? {
      var tail := lines[1..];
      FirstAnswerIsFirstRecognised(tail);
      assert FirstAnswer(lines) == FirstAnswer(tail);
      forall j | 1 <= j < |lines| ensures Recognize(lines[j]) == Recognize(tail[j - 1]) {
        assert lines[j] == tail[j - 1];
      }
      var r := FirstAnswer(tail);
      if r.Answered? {
        var k := |tail| - |r.rest| - 1;
        assert tail[k + 1..] == lines[k + 2..];
      }
    }
  }

  /** `question_whether_to_overwrite`: reads lines until one is recognised. */
  method QuestionWhetherToOverwrite(input: seq<string>) returns (answer: Answer)
    ensures answer == FirstAnswer(input)
  {
    var i := 0;
    while i < |input|
      invariant i <= |input|
      invariant FirstAnswer(input[i..]) == FirstAnswer(input)
    {
      var selection := Parse(Trim(input[i]));
      if selection.Some? {
        return Answered(selection.value, input[i + 1..]);
      }
      assert input[i..][1..] == input[i + 1..];
      i := i + 1;
    }
    answer := InputExhausted;
  }

  /** The outcome of one decision. `Proceed` and `Skip` are the source's `true` and
      `false`; `ExitProgram` is the `exit` answer, on which the program ends with status 0;
      `EndOfInput` is the input running out while the prompt waits. */
  datatype Decision = Proceed | Skip | ExitProgram | EndOfInput

  datatype Decided = Decided(decision: Decision, policy: OverallOverwriteSelect, rest: seq<string>)

  /** `decide_whether_to_execute` on a destination whose existence is given, the policy
      before the call, and the remaining input; gives the outcome, the policy after the
      call and the input left over. */
  function Decide(destinationExists: bool, policy: OverallOverwriteSelect, input: seq<string>): (r: Decided)
    ensures !destinationExists ==> r == Decided(Proceed, policy, input)
    ensures policy != Undecided ==> r.policy == policy && r.rest == input
    ensures policy == OverallOverwriteSelect.Yes ==> r.decision == Proceed
    ensures policy == OverallOverwriteSelect.No ==> r.decision == (if destinationExists then Skip else Proceed)
    ensures r.policy != policy ==>
      && destinationExists && policy == Undecided
      && ((r.policy == OverallOverwriteSelect.Yes && r.decision == Proceed)
          || (r.policy == OverallOverwriteSelect.No && r.decision == Skip))
    ensures r.decision in {ExitProgram, EndOfInput} ==> r.policy == policy
  {
    if !destinationExists then Decided(Proceed, policy, input)
    else match policy
      case Yes => Decided(Proceed, policy, input)
      case No => Decided(Skip, policy, input)
      case Undecided =>
        match FirstAnswer(input)
        case InputExhausted => Decided(EndOfInput, policy, [])
        case Answered(selection, rest) =>
          match selection
          case Yes => Decided(Proceed, policy, rest)
          case No => Decided(Skip, policy, rest)
          case AllYes => Decided(Proceed, OverallOverwriteSelect.Yes, rest)
          case AllNo => Decided(Skip, OverallOverwriteSelect.No, rest)
          case Exit => Decided(ExitProgram, policy, rest)
  }

  /** `decide_whether_to_execute`. */
  method DecideWhetherToExecute(destinationExists: bool, policy: OverallOverwriteSelect, input: seq<string>)
    returns (decision: Decision, newPolicy: OverallOverwriteSelect, rest: seq<string>)
    ensures Decided(decision, newPolicy, rest) == Decide(destinationExists, policy, input)
  {
    newPolicy, rest := policy, input;
    if !destinationExists {
      return Proceed, newPolicy, rest;
    }
    match policy {
      case Yes => decision := Proceed;
      case No => decision := Skip;
      case Undecided =>
        var answer := QuestionWhetherToOverwrite(input);
        if answer.InputExhausted? {
          return EndOfInput, newPolicy, [];
        }
        rest := answer.rest;
        match answer.selection {
          case Yes => decision := Proceed;
          case No => decision := Skip;
          case AllYes =>
            newPolicy := OverallOverwriteSelect.Yes;
            decision := Proceed;
          case AllNo =>
            newPolicy := OverallOverwriteSelect.No;
            decision := Skip;
          case Exit => decision := ExitProgram;
        }
    }
  }

  /** When the destination exists and the policy is undecided, a typed answer (surrounded
      by any white space, such as the newline `read_line` keeps) leads to this table:
      yes/no decide once and leave the policy undecided, all-yes/all-no decide and pin the
      policy, exit ends the run; exactly that one line is consumed. */
  lemma DecideOnTypedAnswer(w1: string, selection: OverwriteSelect, w2: string, later: seq<string>)
    requires AllWhitespace(w1) && AllWhitespace(w2)
    ensures var r := Decide(true, Undecided, [w1 + Token(selection) + w2] + later);
      && r.rest == later
      && r == match selection
         case Yes => Decided(Proceed, Undecided, later)
         case No => Decided(Skip, Undecided, later)
         case AllYes => Decided(Proceed, OverallOverwriteSelect.Yes, later)
         case AllNo => Decided(Skip, OverallOverwriteSelect.No, later)
         case Exit => Decided(ExitProgram, Undecided, later)
  {
    RecognizeTyped(w1, selection, w2);
    assert ([w1 + Token(selection) + w2] + later)[1..] == later;
  }

  /** Unrecognised lines are rejected and the prompt asks again: they change nothing but
      the amount of input consumed. */
  lemma DecideSkipsRejectedLines(rejected: seq<string>, input: seq<string>)
    requires forall j {:trigger Recognize(rejected[j])} :: 0 <= j < |rejected| ==> Recognize(rejected[j]).None?
    ensures Decide(true, Undecided, rejected + input) == Decide(true, Undecided, input)
  {
    FirstAnswerSkipsRejected(rejected, input);
  }

  lemma {:induction false} FirstAnswerSkipsRejected(rejected: seq<string>, input: seq<string>)
    requires forall j {:trigger Recognize(rejected[j])} :: 0 <= j < |rejected| ==> Recognize(rejected[j]).None?
    ensures FirstAnswer(rejected + input) == FirstAnswer(input)
  {
    var lines := rejected + input;
    if rejected != [] {
      assert lines[0] == rejected[0] && Recognize(lines[0]).None?;
      assert lines[1..] == rejected[1..] + input;
      assert FirstAnswer(lines) == FirstAnswer(lines[1..]);
      FirstAnswerSkipsRejected(rejected[1..], input);
    } else {
      assert lines == input;
    }
  }
}
