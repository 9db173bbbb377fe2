/**
  The command-line quiz: the question bank, the option letters, how a question
  is printed, how a line of input is classified, and the scoring session that
  runs round after round over a freshly shuffled copy of the bank.
*/
module Chatbot {
  import opened Wrappers
  import opened Text

  /** A multiple-choice question; `options[i]` is labelled by `LetterKeys[i]`. */
  datatype Question = Question(
    questionText: string,
    options: seq<string>,
    correctOptionKey: string,
    explanation: string)

  /** The option labels in order: "a" labels `options[0]`, ..., "d" labels `options[3]`. */
  const LetterKeys: seq<string> := ["a", "b", "c", "d"]

  /** `xs.index(x)` on a tuple: the first position of `x`, or None where Python raises ValueError. */
  function IndexOf(xs: seq<string>, x: string): (r: Option<nat>)
    ensures r.Some? ==> r.value < |xs| && xs[r.value] == x && x !in xs[..r.value]
    ensures r.None? <==> x !in xs
  {
    if xs == [] then None
    else if xs[0] == x then Some(0)
    else
      match IndexOf(xs[1..], x)
      case None => None
      case Some(i) => assert xs[..i + 1] == [xs[0]] + xs[1..][..i]; Some(i + 1)
  }

  /** `LETTER_KEYS.index(key)`. */
  function LetterIndex(key: string): (r: Option<nat>)
    ensures r.Some? <==> key in LetterKeys
    ensures r.Some? ==> r.value < |LetterKeys| && LetterKeys[r.value] == key
  {
    IndexOf(LetterKeys, key)
  }

  /** Letters and option positions correspond one to one. */
  lemma LetterIndexRoundTrip(i: nat, key: string)
    ensures i < |LetterKeys| ==> LetterIndex(LetterKeys[i]) == Some(i)
    ensures key in LetterKeys <==> LetterIndex(key).Some?
    ensures key in LetterKeys ==> LetterKeys[LetterIndex(key).value] == key
  {
    if i < |LetterKeys| {
      var r := LetterIndex(LetterKeys[i]);
      assert LetterKeys[..i] == ["a", "b", "c", "d"][..i];
    }
  }

  /** The shape every question of the bank has: four options and a key among a-d. */
  predicate WellFormed(q: Question) {
    |q.options| == |LetterKeys| && q.correctOptionKey in LetterKeys
  }

  /** What resolving the correct answer's text needs: the key is a letter that labels an option. */
  predicate Resolvable(q: Question) {
    LetterIndex(q.correctOptionKey).Some? && LetterIndex(q.correctOptionKey).value < |q.options|
  }

  /** `q.options[LETTER_KEYS.index(q.correct_option_key)]`. */
  function CorrectText(q: Question): (text: string)
    requires Resolvable(q)
    ensures text in q.options
  {
    q.options[LetterIndex(q.correctOptionKey).value]
  }

  lemma WellFormedIsResolvable(q: Question)
    requires WellFormed(q)
    ensures Resolvable(q)
    ensures LetterKeys[LetterIndex(q.correctOptionKey).value] == q.correctOptionKey
  {
    LetterIndexRoundTrip(0, q.correctOptionKey);
  }

  // The five questions of the seed bank, in order.

  function FileExtensionQuestion(): (q: Question)
    ensures WellFormed(q)
  {
    Question(
      "What is the correct file extension for Python files?",
      [".pyt", ".pt", ".py", ".python"],
      "c",
      ".py is the standard extension for Python source files.")
  }

  function DefKeywordQuestion(): (q: Question)
    ensures WellFormed(q)
  {
    Question(
      "Which keyword is used to define a function in Python?",
      ["func", "def", "function", "define"],
      "b",
      "Functions in Python are defined using the 'def' keyword.")
  }

  function CommentQuestion(): (q: Question)
    ensures WellFormed(q)
  {
    Question(
      "How do you write a comment in Python?",
      ["// comment", "<!-- comment -->", "/* comment */", "# comment"],
      "d",
      "Python uses the hash symbol (#) for single-line comments.")
  }

  function InputTypeQuestion(): (q: Question)
    ensures WellFormed(q)
  {
    Question(
      "What is the output type of input() in Python 3?",
      ["int", "str", "float", "bool"],
      "b",
      "input() returns a string. Convert it if you need another type.")
  }

  function ListLiteralQuestion(): (q: Question)
    ensures WellFormed(q)
  {
    Question(
      "Which of the following is a valid list in Python?",
      ["{1, 2, 3}", "(1, 2, 3)", "[1, 2, 3]", "<1, 2, 3>"],
      "c",
      "Lists use square brackets, e.g., [1, 2, 3].")
  }

  /** `build_questions()`: a fresh list holding the seed bank, five distinct well-formed questions. */
  method BuildQuestions() returns (bank: seq<Question>)
    ensures bank == [FileExtensionQuestion(), DefKeywordQuestion(), CommentQuestion(), InputTypeQuestion(), ListLiteralQuestion()]
    ensures |bank| == 5
    ensures forall i :: 0 <= i < |bank| ==> WellFormed(bank[i])
    ensures Distinct(bank)
  {
    bank := [FileExtensionQuestion(), DefKeywordQuestion(), CommentQuestion(), InputTypeQuestion(), ListLiteralQuestion()];
    // the five question texts have five different lengths
    assert |bank[0].questionText| == 52 && |bank[1].questionText| == 53 && |bank[2].questionText| == 37;
    assert |bank[3].questionText| == 47 && |bank[4].questionText| == 49;
  }

  /** No question occurs twice. */
  predicate Distinct(qs: seq<Question>) {
    forall i, j :: 0 <= i < j < |qs| ==> qs[i] != qs[j]
  }

  // ---------------------------------------------------------------------------
  // Printing a question
  // ---------------------------------------------------------------------------

  /** One option line: two spaces, the letter, ") ", the option. */
  function OptionLine(key: string, option: string): (line: string)
    ensures |line| == |key| + |option| + 4
    ensures line[..2] == "  " && line[2..2 + |key|] == key && line[|line| - |option|..] == option
  {
    "  " + key + ") " + option
  }

  /** The lines `format_question` joins: the question text, then one labelled line per option. */
  function QuestionLines(q: Question): (lines: seq<string>)
    requires |q.options| <= |LetterKeys|
    ensures |lines| == 1 + |q.options| && lines[0] == q.questionText
    ensures forall i :: 0 <= i < |q.options| ==> lines[i + 1] == OptionLine(LetterKeys[i], q.options[i])
  {
    [q.questionText] + seq(|q.options|, i requires 0 <= i < |q.options| => OptionLine(LetterKeys[i], q.options[i]))
  }

  /**
    `format_question`: builds the lines one option at a time and joins them
    with newlines. More than four options would index past `LETTER_KEYS`.
  */
  method FormatQuestion(q: Question) returns (text: string)
    requires |q.options| <= |LetterKeys|
    ensures text == Join(QuestionLines(q), "\n")
  {
    var lines := [q.questionText];
    for idx := 0 to |q.options|
      invariant |lines| == 1 + idx && lines[0] == q.questionText
      invariant forall i :: 0 <= i < idx ==> lines[i + 1] == OptionLine(LetterKeys[i], q.options[i])
    {
      lines := lines + [OptionLine(LetterKeys[idx], q.options[idx])];
    }
    assert lines == QuestionLines(q);
    text := Join(lines, "\n");
  }

  /** A question printed by `FormatQuestion` reads back as exactly its 1 + |options| lines. */
  lemma FormattedLines(q: Question)
    requires |q.options| <= |LetterKeys|
    requires '\n' !in q.questionText
    requires forall i :: 0 <= i < |q.options| ==> '\n' !in q.options[i]
    ensures Split(Join(QuestionLines(q), "\n"), '\n') == QuestionLines(q)
    ensures |Split(Join(QuestionLines(q), "\n"), '\n')| == 1 + |q.options|
  {
    QuestionLinesOneLine(q);
    assert "\n" == ['\n'];
    SplitJoin(QuestionLines(q), '\n');
  }

  /** No printed line holds a newline when neither the text nor an option does. */
  lemma QuestionLinesOneLine(q: Question)
    requires |q.options| <= |LetterKeys|
    requires '\n' !in q.questionText
    requires forall i :: 0 <= i < |q.options| ==> '\n' !in q.options[i]
    ensures forall i :: 0 <= i < |QuestionLines(q)| ==> '\n' !in QuestionLines(q)[i]
  {
    var lines := QuestionLines(q);
    forall i | 0 <= i < |lines| ensures '\n' !in lines[i] {
      if i > 0 {
        var j := i - 1;
        assert lines[j + 1] == OptionLine(LetterKeys[j], q.options[j]);
        OptionLineOneLine(j, q.options[j]);
      }
    }
  }


  /** An option line holds no newline unless its option text does. */
  lemma OptionLineOneLine(i: nat, option: string)
    requires i < |LetterKeys| && '\n' !in option
    ensures '\n' !in OptionLine(LetterKeys[i], option)
  {
    var k := LetterKeys[i];
    assert k == "a" || k == "b" || k == "c" || k == "d";
    assert OptionLine(k, option) == "  " + k + ") " + option;
  }

  // ---------------------------------------------------------------------------
  // Reading a choice
  // ---------------------------------------------------------------------------

  /** What `ask_for_choice` makes of a raw line: stripped, then lower-cased. */
  function Normalize(raw: string): (token: string)
    ensures |token| <= |raw|
  {
    Lower(Strip(raw))
  }

  /** The tokens `ask_for_choice` returns: quit, skip, or an option letter. */
  predicate Accepted(token: string) {
    token == "q" || token == "s" || token in LetterKeys
  }

  /** The characters that, alone on a stripped line, are accepted: each token letter in either case. */
  const AcceptedLetters: set<char> := {'q', 'Q', 's', 'S', 'a', 'A', 'b', 'B', 'c', 'C', 'd', 'D'}

  /** The accepted tokens are the six one-letter texts "q", "s", "a", "b", "c" and "d". */
  lemma AcceptedOneLetter(token: string)
    ensures Accepted(token) <==> |token| == 1 && token[0] in "qsabcd"
  {
    if |token| == 1 {
      assert token == [token[0]];
    }
  }

  /** Lower-casing one character gives an accepted token exactly for the accepted letters. */
  lemma LowerCharAccepted(c: char)
    ensures Accepted([LowerChar(c)]) <==> c in AcceptedLetters
  {
    if 'A' <= c <= 'Z' {
      assert LowerChar(c) as int == c as int + 32;
    }
  }

  /** A lower-cased text is accepted exactly when the text is one of the six letters in either case. */
  lemma AcceptedLowerIff(t: string)
    ensures Accepted(Lower(t)) <==> |t| == 1 && t[0] in AcceptedLetters
  {
    AcceptedOneLetter(Lower(t));
    if |t| == 1 {
      assert Lower(t) == [LowerChar(t[0])];
      LowerCharAccepted(t[0]);
    }
  }

  /** A line is accepted exactly when, stripped, it is one of the six letters in either case. */
  lemma AcceptedIff(raw: string)
    ensures Accepted(Normalize(raw)) <==> |Strip(raw)| == 1 && Strip(raw)[0] in AcceptedLetters
  {
    AcceptedLowerIff(Strip(raw));
  }

  /** What `ask_for_choice` makes of one line: the token it returns, or None when it re-prompts. */
  function Classify(line: string): (r: Option<string>)
    ensures r.Some? <==> Accepted(Normalize(line))
    ensures r.Some? ==> r.value == Normalize(line)
  {
    var t := Normalize(line);
    if Accepted(t) then Some(t) else None
  }

  /** The classification of every line of the input, in order. */
  function ClassifyAll(inputs: seq<string>): (cls: seq<Option<string>>)
    ensures |cls| == |inputs|
  {
    if inputs == [] then [] else ClassifyAll(inputs[..|inputs| - 1]) + [Classify(inputs[|inputs| - 1])]
  }

  /** `cls` classifies `inputs` line by line. */
  ghost predicate ClassifiedAs(inputs: seq<string>, cls: seq<Option<string>>) {
    |cls| == |inputs| && forall j {:trigger Classify(inputs[j])} :: 0 <= j < |inputs| ==> cls[j] == Classify(inputs[j])
  }

  lemma {:induction false} ClassifyAllClassifies(inputs: seq<string>)
    ensures ClassifiedAs(inputs, ClassifyAll(inputs))
  {
    if inputs != [] {
      var init := inputs[..|inputs| - 1];
      ClassifyAllClassifies(init);
      forall j | 0 <= j < |inputs| ensures ClassifyAll(inputs)[j] == Classify(inputs[j]) {
        if j < |init| {
          assert inputs[j] == init[j];
          assert Classify(init[j]) == ClassifyAll(init)[j];
        }
      }
    }
  }

  /** The tokens among the first `n` classified lines, in order. */
  function TokensOf(cls: seq<Option<string>>, n: nat): seq<string>
    requires n <= |cls|
  {
    if n == 0 then []
    else TokensOf(cls, n - 1) + if cls[n - 1].Some? then [cls[n - 1].value] else []
  }

  /** All the tokens the user's input holds, in order: what the quiz can ever read. */
  function AcceptedTokens(inputs: seq<string>): seq<string> {
    TokensOf(ClassifyAll(inputs), |inputs|)
  }

  /** Rejected lines contribute no token. */
  lemma {:induction false} TokensSkipRejected(cls: seq<Option<string>>, pos: nat, next: nat)
    requires pos <= next <= |cls|
    requires forall j :: pos <= j < next ==> cls[j].None?
    ensures TokensOf(cls, next) == TokensOf(cls, pos)
    decreases next
  {
    if pos < next {
      TokensSkipRejected(cls, pos, next - 1);
    }
  }

  /** The tokens of a first part of the input are a prefix of all its tokens. */
  lemma {:induction false} TokensPrefix(cls: seq<Option<string>>, n: nat)
    requires n <= |cls|
    ensures TokensOf(cls, n) <= TokensOf(cls, |cls|)
    decreases |cls| - n
  {
    if n < |cls| {
      TokensPrefix(cls, n + 1);
    }
  }

  /**
    `ask_for_choice`, reading the input from line `pos` on: rejected lines are
    re-prompted for, the first accepted one is returned normalized and `next`
    is the line after it. None means the input ran out (EOF) first.
  */
  method AskForChoice(inputs: seq<string>, pos: nat) returns (choice: Option<string>, next: nat)
    requires pos <= |inputs|
    ensures pos <= next <= |inputs|
    ensures forall j :: pos <= j < next - 1 ==> Classify(inputs[j]).None?
    ensures choice.Some? ==> pos < next && choice == Classify(inputs[next - 1]) && Accepted(choice.value)
    ensures choice.None? ==> next == |inputs| && (pos < next ==> Classify(inputs[next - 1]).None?)
  {
    next := pos;
    while next < |inputs|
      invariant pos <= next <= |inputs|
      invariant forall j :: pos <= j < next ==> Classify(inputs[j]).None?
    {
      var raw := Normalize(inputs[next]);
      next := next + 1;
      if Accepted(raw) {
        return Some(raw), next;
      }
    }
    return None, next;
  }

  /** The lines one `AskForChoice` reads add exactly the choice it returns to the tokens read. */
  lemma ChoiceTokens(cls: seq<Option<string>>, pos: nat, choice: Option<string>, next: nat)
    requires pos <= next <= |cls|
    requires forall j :: pos <= j < next - 1 ==> cls[j].None?
    requires choice.Some? ==> pos < next && cls[next - 1] == choice
    requires choice.None? ==> next == |cls| && (pos < next ==> cls[next - 1].None?)
    ensures TokensOf(cls, next) == TokensOf(cls, pos) + if choice.Some? then [choice.value] else []
  {
    if choice.Some? {
      TokensSkipRejected(cls, pos, next - 1);
    } else {
      TokensSkipRejected(cls, pos, next);
    }
  }

  // ---------------------------------------------------------------------------
  // The scoring session
  // ---------------------------------------------------------------------------

  /** The final report: questions answered and how many were right. */
  datatype Tally = Tally(answered: nat, correct: nat)

  /** Right, or wrong together with the correct letter and its option text. */
  datatype Verdict = Right | Wrong(correctKey: string, correctText: string)

  /** What is printed after an answer: the verdict, the explanation and the running score. */
  datatype Feedback = Feedback(verdict: Verdict, explanation: string, score: nat, total: nat)

  /** The counters of `run_quiz_loop`, one method per input event. */
  class Session {
    var score: nat
    var totalAnswered: nat
    var finished: bool

    ghost predicate Valid()
      reads this
    {
      score <= totalAnswered
    }

    constructor ()
      ensures Valid() && score == 0 && totalAnswered == 0 && !finished
    {
      score, totalAnswered, finished := 0, 0, false;
    }

    /** Input "q": the only way out; reports the counters as they stand. */
    method Quit() returns (t: Tally)
      requires Valid() && !finished
      modifies this
      ensures Valid() && finished
      ensures score == old(score) && totalAnswered == old(totalAnswered)
      ensures t == Tally(old(totalAnswered), old(score)) && t.correct <= t.answered
    {
      finished := true;
      t := Tally(totalAnswered, score);
    }

    /** Input "s": the question is passed over and no counter moves. */
    method Skip()
      requires Valid() && !finished
      modifies this
      ensures Valid() && !finished
      ensures score == old(score) && totalAnswered == old(totalAnswered)
    {
    }

    /**
      Input "a".."d": one more answered question, one more point exactly when
      the letter is the key; a wrong answer also shows the correct option.
    */
    method Answer(q: Question, choice: string) returns (fb: Feedback)
      requires Valid() && !finished
      requires choice in LetterKeys
      requires choice != q.correctOptionKey ==> Resolvable(q)
      modifies this
      ensures Valid() && !finished
      ensures totalAnswered == old(totalAnswered) + 1
      ensures score == old(score) + (if IsRight(q, choice) then 1 else 0)
      ensures fb.verdict == if IsRight(q, choice) then Right else Wrong(q.correctOptionKey, CorrectText(q))
      ensures fb.explanation == q.explanation && fb.score == score && fb.total == totalAnswered
    {
      totalAnswered := totalAnswered + 1;
      var verdict;
      if choice == q.correctOptionKey {
        score := score + 1;
        verdict := Right;
      } else {
        var correctIdx := LetterIndex(q.correctOptionKey).value;
        verdict := Wrong(q.correctOptionKey, q.options[correctIdx]);
      }
      fb := Feedback(verdict, q.explanation, score, totalAnswered);
    }
  }

  /** Whether `choice` earns a point on `q`: a letter answer equal to the key. */
  predicate IsRight(q: Question, choice: string) {
    choice in LetterKeys && choice == q.correctOptionKey
  }

  /** The number of letter answers among `choices`: what `total_answered` counts. */
  function Answered(choices: seq<string>): nat {
    if choices == [] then 0
    else Answered(choices[..|choices| - 1]) + (if choices[|choices| - 1] in LetterKeys then 1 else 0)
  }

  /** The number of `choices[i]` that are right for `qs[i]`: what `score` counts. */
  function Correct(qs: seq<Question>, choices: seq<string>): nat
    requires |qs| == |choices|
  {
    if choices == [] then 0
    else
      var n := |choices| - 1;
      Correct(qs[..n], choices[..n]) + (if IsRight(qs[n], choices[n]) then 1 else 0)
  }

  /** The score never exceeds the number of questions answered. */
  lemma {:induction false} CorrectAtMostAnswered(qs: seq<Question>, choices: seq<string>)
    requires |qs| == |choices|
    ensures Correct(qs, choices) <= Answered(choices)
  {
    if choices != [] {
      var n := |choices| - 1;
      CorrectAtMostAnswered(qs[..n], choices[..n]);
    }
  }

  lemma {:induction false} AnsweredAppend(a: seq<string>, b: seq<string>)
    ensures Answered(a + b) == Answered(a) + Answered(b)
    decreases |b|
  {
    if b == [] {
      assert a + b == a;
    } else {
      var n := |b| - 1;
      assert (a + b)[..|a + b| - 1] == a + b[..n];
      AnsweredAppend(a, b[..n]);
    }
  }

  lemma {:induction false} CorrectAppend(qs: seq<Question>, a: seq<string>, qs': seq<Question>, b: seq<string>)
    requires |qs| == |a| && |qs'| == |b|
    ensures Correct(qs + qs', a + b) == Correct(qs, a) + Correct(qs', b)
    decreases |b|
  {
    if b == [] {
      assert qs + qs' == qs && a + b == a;
    } else {
      var n := |b| - 1;
      assert (qs + qs')[..|qs + qs'| - 1] == qs + qs'[..n];
      assert (a + b)[..|a + b| - 1] == a + b[..n];
      CorrectAppend(qs, a, qs'[..n], b[..n]);
    }
  }

  /** One more choice read for one more question moves the counts by that choice alone. */
  lemma CountersStep(qs: seq<Question>, choices: seq<string>, q: Question, c: string)
    requires |qs| == |choices|
    ensures Answered(choices + [c]) == Answered(choices) + if c in LetterKeys then 1 else 0
    ensures Correct(qs + [q], choices + [c]) == Correct(qs, choices) + if IsRight(q, c) then 1 else 0
  {
    assert (choices + [c])[..|choices|] == choices;
    assert (qs + [q])[..|qs|] == qs;
  }

  /** The questions of consecutive rounds, one after another. */
  function Concat(rounds: seq<seq<Question>>): seq<Question> {
    if rounds == [] then [] else Concat(rounds[..|rounds| - 1]) + rounds[|rounds| - 1]
  }

  /** `random.shuffle` on a copy of `questions`: some permutation of it, no matter which. */
  method Shuffle(questions: seq<Question>) returns (shuffled: seq<Question>)
    ensures multiset(shuffled) == multiset(questions)
  {
    shuffled :| multiset(shuffled) == multiset(questions);
  }

  /**
    One pass of the inner loop of `run_quiz_loop`: print `q`, read a choice
    and let the session handle it. No choice means the input ran out.
    `asked` and `read` are the questions and choices of the round so far.
  */
  method AskQuestion(session: Session, q: Question, inputs: seq<string>, ghost cls: seq<Option<string>>, pos: nat,
                     ghost asked: seq<Question>, ghost read: seq<string>)
    returns (choice: Option<string>, next: nat, tally: Option<Tally>)
    requires session.Valid() && !session.finished
    requires WellFormed(q) && pos <= |inputs| && ClassifiedAs(inputs, cls)
    requires |asked| == |read|
    modifies session
    ensures pos <= next <= |inputs|
    ensures TokensOf(cls, next) == TokensOf(cls, pos) + if choice.Some? then [choice.value] else []
    ensures choice.Some? ==> pos < next && Accepted(choice.value)
    ensures choice.None? ==> next == |inputs|
    ensures session.Valid()
    ensures session.finished <==> choice == Some("q")
    ensures tally.Some? <==> choice == Some("q")
    ensures tally.Some? ==> tally.value == Tally(old(session.totalAnswered), old(session.score))
    ensures session.totalAnswered == old(session.totalAnswered) + if choice.Some? && choice.value in LetterKeys then 1 else 0
    ensures session.score == old(session.score) + if choice.Some? && IsRight(q, choice.value) then 1 else 0
    ensures choice.Some? ==>
      && session.totalAnswered - old(session.totalAnswered) == Answered(read + [choice.value]) - Answered(read)
      && session.score - old(session.score) == Correct(asked + [q], read + [choice.value]) - Correct(asked, read)
  {
    choice, next := AskForChoice(inputs, pos);
    forall j | pos <= j < next - 1 ensures cls[j].None? {
      assert Classify(inputs[j]).None?;
    }
    if pos < next {
      assert cls[next - 1] == Classify(inputs[next - 1]);
    }
    ChoiceTokens(cls, pos, choice, next);
    tally := None;
    if choice == Some("q") {
      var t := session.Quit();
      tally := Some(t);
    } else if choice == Some("s") {
      session.Skip();
    } else if choice.Some? {
      WellFormedIsResolvable(q);
      var feedback := session.Answer(q, choice.value);
    }
    if choice.Some? {
      CountersStep(asked, read, q, choice.value);
    }
  }

  /** How a round ended: every question was asked, the user quit, or the input ran out. */
  datatype RoundEnd = Completed | Quitted(tally: Tally) | InputExhausted

  /**
    The `for q in shuffled` loop: asks the questions of `round` in order.
    `asked` are the questions printed, `read` the choices read for them.
  */
  method PlayRound(session: Session, round: seq<Question>, inputs: seq<string>, ghost cls: seq<Option<string>>, pos: nat)
    returns (end: RoundEnd, asked: seq<Question>, read: seq<string>, next: nat)
    requires session.Valid() && !session.finished
    requires round != [] && forall i :: 0 <= i < |round| ==> WellFormed(round[i])
    requires pos <= |inputs| && ClassifiedAs(inputs, cls)
    modifies session
    ensures pos <= next <= |inputs|
    ensures TokensOf(cls, next) == TokensOf(cls, pos) + read
    ensures [] < asked <= round
    ensures session.Valid() && (session.finished <==> end.Quitted?)
    ensures end.Completed? ==> asked == round && pos < next
    ensures end.InputExhausted? ==> next == |inputs| && |read| + 1 == |asked| && "q" !in read
    ensures !end.InputExhausted? ==> |read| == |asked|
    ensures end.Completed? ==> "q" !in read
    ensures end.Quitted? ==> read[|read| - 1] == "q" && "q" !in read[..|read| - 1]
    ensures end.Quitted? ==> end.tally == Tally(session.totalAnswered, session.score)
    ensures session.totalAnswered == old(session.totalAnswered) + Answered(read)
    ensures session.score == old(session.score) + Correct(asked[..|read|], read)
  {
    asked, read, next := [], [], pos;
    for i := 0 to |round|
      invariant pos <= next <= |inputs| && (i > 0 ==> pos < next)
      invariant TokensOf(cls, next) == TokensOf(cls, pos) + read
      invariant asked == round[..i] && |read| == i && "q" !in read
      invariant session.Valid() && !session.finished
      invariant session.totalAnswered == old(session.totalAnswered) + Answered(read)
      invariant session.score == old(session.score) + Correct(asked, read)
    {
      var q := round[i];
      var choice, tally;
      choice, next, tally := AskQuestion(session, q, inputs, cls, next, asked, read);
      assert round[..i + 1] == asked + [q];
      if choice.None? {
        asked := asked + [q];
        assert asked[..|read|] == round[..i];
        return InputExhausted, asked, read, next;
      }
      var c := choice.value;
      asked, read := asked + [q], read + [c];
      if c == "q" {
        assert read[..|read| - 1] == read[..i];
        assert asked[..|read|] == asked;
        return Quitted(tally.value), asked, read, next;
      }
    }
    end := Completed;
  }

  /**
    The loop of `run_quiz_loop` over a bank of well-formed questions and the
    lines the user types. Every round is an arbitrary permutation of the bank
    (the shuffle); `presented` lists the questions printed, `choices` the
    accepted tokens read for them. The session ends on "q" with the tally of
    the counters, or when the input runs out (None).
  */
  method PlayQuiz(questions: seq<Question>, inputs: seq<string>)
    returns (tally: Option<Tally>, presented: seq<Question>, choices: seq<string>, rounds: seq<seq<Question>>)
    requires questions != [] && forall i :: 0 <= i < |questions| ==> WellFormed(questions[i])
    ensures rounds != [] && forall r :: 0 <= r < |rounds| ==> multiset(rounds[r]) == multiset(questions)
    ensures Concat(rounds[..|rounds| - 1]) < presented <= Concat(rounds)
    ensures choices <= AcceptedTokens(inputs)
    ensures tally.Some? ==>
      && |choices| == |presented| && choices[|choices| - 1] == "q" && "q" !in choices[..|choices| - 1]
      && tally.value == Tally(Answered(choices), Correct(presented, choices))
      && tally.value.correct <= tally.value.answered
    ensures tally.None? ==>
      |choices| + 1 == |presented| && "q" !in choices && choices == AcceptedTokens(inputs)
  {
    var session := new Session();
    var pos := 0;
    ghost var cls := ClassifyAll(inputs);
    ClassifyAllClassifies(inputs);
    presented, choices, rounds := [], [], [];
    while true
      invariant pos <= |inputs|
      invariant session.Valid() && !session.finished
      invariant |presented| == |choices| && "q" !in choices
      invariant choices == TokensOf(cls, pos)
      invariant session.totalAnswered == Answered(choices)
      invariant session.score == Correct(presented, choices)
      invariant forall r :: 0 <= r < |rounds| ==> multiset(rounds[r]) == multiset(questions)
      invariant presented == Concat(rounds)
      decreases |inputs| - pos
    {
      var shuffled := Shuffle(questions);
      PermutationWellFormed(questions, shuffled);
      var end, asked, read, next := PlayRound(session, shuffled, inputs, cls, pos);
      RoundStep(rounds, shuffled, asked);
      RoundsPermute(rounds, shuffled, questions);
      RoundCounters(presented, choices, asked, read);
      rounds, pos := rounds + [shuffled], next;
      if end.InputExhausted? {
        return None, presented + asked, choices + read, rounds;
      }
      presented, choices := presented + asked, choices + read;
      if end.Quitted? {
        TokensPrefix(cls, pos);
        CorrectAtMostAnswered(presented, choices);
        return Some(end.tally), presented, choices, rounds;
      }
    }
  }

  /**
    The counters and the quit mark after one more round: answers and points
    add up, and "q" stays absent or is last only.
  */
  lemma RoundCounters(presented: seq<Question>, choices: seq<string>, asked: seq<Question>, read: seq<string>)
    requires |presented| == |choices| && "q" !in choices && |read| <= |asked|
    ensures Answered(choices + read) == Answered(choices) + Answered(read)
    ensures Correct(presented + asked[..|read|], choices + read) == Correct(presented, choices) + Correct(asked[..|read|], read)
    ensures |read| == |asked| ==> asked[..|read|] == asked
    ensures "q" !in read ==> "q" !in choices + read
    ensures read != [] && "q" !in read[..|read| - 1] ==>
      (choices + read)[|choices + read| - 1] == read[|read| - 1] && "q" !in (choices + read)[..|choices + read| - 1]
  {
    AnsweredAppend(choices, read);
    CorrectAppend(presented, choices, asked[..|read|], read);
    QuitMarks(choices, read);
  }

  /** Where "q" occurs in the choices once a round's choices are appended. */
  lemma QuitMarks(choices: seq<string>, read: seq<string>)
    requires "q" !in choices
    ensures "q" !in read ==> "q" !in choices + read
    ensures read != [] && "q" !in read[..|read| - 1] ==>
      (choices + read)[|choices + read| - 1] == read[|read| - 1] && "q" !in (choices + read)[..|choices + read| - 1]
  {
    if read != [] {
      assert (choices + read)[..|choices + read| - 1] == choices + read[..|read| - 1];
    }
  }

  /** One more shuffled round keeps every round a permutation of the bank. */
  lemma RoundsPermute(rounds: seq<seq<Question>>, shuffled: seq<Question>, questions: seq<Question>)
    requires forall r :: 0 <= r < |rounds| ==> multiset(rounds[r]) == multiset(questions)
    requires multiset(shuffled) == multiset(questions)
    ensures forall r :: 0 <= r < |rounds + [shuffled]| ==> multiset((rounds + [shuffled])[r]) == multiset(questions)
  {
  }

  /** A permutation of well-formed questions holds only well-formed questions. */
  lemma PermutationWellFormed(questions: seq<Question>, shuffled: seq<Question>)
    requires forall i :: 0 <= i < |questions| ==> WellFormed(questions[i])
    requires multiset(shuffled) == multiset(questions)
    ensures |shuffled| == |questions|
    ensures forall i :: 0 <= i < |shuffled| ==> WellFormed(shuffled[i])
  {
    assert |shuffled| == |multiset(shuffled)| == |questions|;
    forall i | 0 <= i < |shuffled| ensures WellFormed(shuffled[i]) {
      assert shuffled[i] in multiset(questions);
    }
  }

  /** A round that presents a first part of `shuffled` extends what was presented before within that round. */
  lemma RoundStep(rounds: seq<seq<Question>>, shuffled: seq<Question>, asked: seq<Question>)
    requires [] < asked <= shuffled
    ensures (rounds + [shuffled])[..|rounds|] == rounds
    ensures Concat(rounds) < Concat(rounds) + asked <= Concat(rounds + [shuffled])
    ensures asked == shuffled ==> Concat(rounds) + asked == Concat(rounds + [shuffled])
  {
    ConcatSnoc(rounds, shuffled);
    var c := Concat(rounds);
    assert (c + shuffled)[..|c| + |asked|] == c + asked;
  }

  /** Concatenating one more round appends its questions. */
  lemma ConcatSnoc(rounds: seq<seq<Question>>, round: seq<Question>)
    ensures (rounds + [round])[..|rounds|] == rounds
    ensures Concat(rounds + [round]) == Concat(rounds) + round
  {
    assert (rounds + [round])[..|rounds|] == rounds;
  }

  /**
    `run_quiz_loop`: the quiz over a freshly built bank of five distinct
    questions. Every round presents each question of the bank exactly once;
    the session ends only on "q", with the tally of the choices read, or
    when the input runs out.
  */
  method RunQuizLoop(inputs: seq<string>)
    returns (tally: Option<Tally>, bank: seq<Question>, presented: seq<Question>, choices: seq<string>, rounds: seq<seq<Question>>)
    ensures |bank| == 5 && rounds != []
    ensures forall r :: 0 <= r < |rounds| ==> multiset(rounds[r]) == multiset(bank)
    ensures forall r, i :: 0 <= r < |rounds| && 0 <= i < |bank| ==> multiset(rounds[r])[bank[i]] == 1
    ensures Concat(rounds[..|rounds| - 1]) < presented <= Concat(rounds)
    ensures choices <= AcceptedTokens(inputs)
    ensures tally.Some? ==>
      && |choices| == |presented| && choices[|choices| - 1] == "q" && "q" !in choices[..|choices| - 1]
      && tally.value == Tally(Answered(choices), Correct(presented, choices))
      && tally.value.correct <= tally.value.answered
    ensures tally.None? ==> |choices| + 1 == |presented| && "q" !in choices && choices == AcceptedTokens(inputs)
  {
    bank := BuildQuestions();
    tally, presented, choices, rounds := PlayQuiz(bank, inputs);
    forall r | 0 <= r < |rounds| ensures forall i :: 0 <= i < |bank| ==> multiset(rounds[r])[bank[i]] == 1 {
      RoundPresentsEachOnce(bank, rounds[r]);
    }
  }

  /** Multiset multiplicity of an element in a sequence without repeats. */
  lemma {:induction false} DistinctOnce(s: seq<Question>, i: nat)
    requires i < |s|
    requires Distinct(s)
    ensures multiset(s)[s[i]] == 1
  {
    var n := |s| - 1;
    assert s == s[..n] + [s[n]];
    if i == n {
      assert s[n] !in s[..n];
    } else {
      DistinctOnce(s[..n], i);
    }
  }

  /** A round, being a permutation of a bank without repeats, presents each of its questions exactly once. */
  lemma RoundPresentsEachOnce(bank: seq<Question>, round: seq<Question>)
    requires Distinct(bank)
    requires multiset(round) == multiset(bank)
    ensures |round| == |bank|
    ensures forall i :: 0 <= i < |bank| ==> multiset(round)[bank[i]] == 1
  {
    assert |round| == |multiset(round)| == |bank|;
    forall i | 0 <= i < |bank| ensures multiset(round)[bank[i]] == 1 {
      DistinctOnce(bank, i);
    }
  }
}
