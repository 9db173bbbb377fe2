# Python Quiz Chatbot — a Dafny model

The quiz has two faces over the same five questions:

- a **command-line quiz** (`chatbot.py`). It prints each question with its options labelled a–d. It reads a choice, scores it and shows the correct option and the explanation. It starts again on a freshly shuffled copy of the bank after every round, until the user types `q`.
- a **REST API** (`main.py`). It lists questions, looks one up by id with or without its answer, picks a random one, counts them, and checks a submitted answer.

The model has five modules:

- `Wrappers` (`wrappers.dfy`): `Option` and `Result`. These stand in for Python's `None`, the exceptions that abort a handler, and the end of input.
- `Text` (`text.dfy`): the Python string operations the code relies on: `strip`, `lower`, `"\n".join`, `split`, `str(int)` and decimal integer parsing.
- `Chatbot` (`chatbot.dfy`):
  - the `Question` record, the letter table and the seed bank;
  - `format_question`, as a loop proved against the list of lines it joins;
  - the re-prompting input loop of `ask_for_choice`;
  - the scoring session, a class whose methods are the three input events (quit, skip, answer);
  - the nested round loop of `run_quiz_loop`. The shuffle is an arbitrary permutation, and the user's input is a sequence of lines.
- `Api` (`api.dfy`): the question and submit handlers of `main.py`, taking the bank and the request. Each is a function, except the random pick, which is a method making an arbitrary choice. An HTTP error is an `Err` carrying its status. The request model's field constraints are a validator.
- `Routing` (`routing.dfy`): how a request reaches a handler. The routes are tried in declaration order, and the path parameter is then parsed as an integer. This is where the one defect found sits (see Findings).

## Model

| member | source | states |
|---|---|---|
| Chatbot.LetterIndex | chatbot.py:101 | `LETTER_KEYS.index(key)`: found exactly for a–d, at the position holding the key |
| Chatbot.IndexOf | chatbot.py:101 | `tuple.index`: the first position holding the key, or None exactly when the key is absent (Python raises ValueError) |
| Chatbot.LetterIndexRoundTrip | chatbot.py:14 | the letter table maps a→0 … d→3 and back: a key is found exactly when it is one of the letters, and the letter at its index is the key |
| Chatbot.CorrectText | chatbot.py:101-102 | the correct text shown is one of the question's options, the one the key labels (see WellFormedIsResolvable) |
| Chatbot.WellFormedIsResolvable | chatbot.py:101-102 | a question with four options and a key among a–d always resolves its correct option text; index and option lookups cannot raise |
| Chatbot.FileExtensionQuestion | chatbot.py:19-24 | first seed question, verbatim; four options and key "c" |
| Chatbot.DefKeywordQuestion | chatbot.py:25-30 | second seed question, verbatim; four options and key "b" |
| Chatbot.CommentQuestion | chatbot.py:31-36 | third seed question, verbatim; four options and key "d" |
| Chatbot.InputTypeQuestion | chatbot.py:37-42 | fourth seed question, verbatim; four options and key "b" |
| Chatbot.ListLiteralQuestion | chatbot.py:43-48 | fifth seed question, verbatim; four options and key "c" |
| Chatbot.BuildQuestions | chatbot.py:17-49 | the bank is exactly the five seed questions in source order: each has 4 options and a key in {a,b,c,d}, and no two are alike |
| Chatbot.OptionLine | chatbot.py:61 | an option line is two spaces, the letter, ") " and the option text, at its end |
| Chatbot.QuestionLines | chatbot.py:58-62 | the lines printed: the question text, then line i+1 is two spaces, letter i, ") ", option i, in order; 1 + len(options) lines |
| Chatbot.FormatQuestion | chatbot.py:58-62 | the append loop builds exactly those lines and joins them with newlines; needs at most four options |
| Chatbot.FormattedLines | chatbot.py:58-62 | splitting the printed text at newlines gives back exactly the 1 + len(options) lines |
| Chatbot.QuestionLinesOneLine | chatbot.py:58-62 | no printed line holds a newline when neither the question text nor an option does |
| Chatbot.OptionLineOneLine | chatbot.py:61 | an option line holds no newline unless its option text does |
| Chatbot.Normalize | chatbot.py:67 | a line stripped and lower-cased is no longer than the line; AcceptedIff states which lines normalise to a token |
| Chatbot.Accepted | chatbot.py:68 | the test `choice in ("q", "s") or choice in LETTER_KEYS`; AcceptedOneLetter shows it holds for exactly six one-letter tokens |
| Chatbot.AcceptedOneLetter | chatbot.py:68 | the tokens accepted are exactly the six one-letter texts q, s, a, b, c, d |
| Chatbot.LowerCharAccepted | chatbot.py:67-68 | a character lower-cases to an accepted letter exactly when it is one of them in either case |
| Chatbot.AcceptedLowerIff | chatbot.py:67-68 | a lower-cased text is accepted exactly when it is one character from q, s, a, b, c, d in either case |
| Chatbot.AcceptedIff | chatbot.py:67-68 | a raw line is accepted exactly when stripping its whitespace leaves one of those twelve characters alone |
| Chatbot.Classify | chatbot.py:67-69 | a line yields a token exactly when its stripped, lower-cased form is accepted, and the token is that form |
| Chatbot.ClassifyAllClassifies | chatbot.py:65-70 | classifying the whole input classifies every line, in order |
| Chatbot.TokensSkipRejected | chatbot.py:66-70 | re-prompted lines add no token |
| Chatbot.TokensPrefix | chatbot.py:65-70 | the tokens of a first part of the input are a prefix of all its tokens |
| Chatbot.AskForChoice | chatbot.py:65-70 | the loop skips rejected lines and returns the first accepted line, stripped and lower-cased, which is one of q, s, a–d. It returns None only when the input runs out, after rejecting every remaining line |
| Chatbot.ChoiceTokens | chatbot.py:65-70 | one call consumes the rejected lines and contributes exactly its choice to the tokens read |
| Chatbot.Session.constructor | chatbot.py:75-76 | a session starts with score 0 and nothing answered |
| Chatbot.Session.Quit | chatbot.py:88-90 | quitting ends the session and reports exactly the current counters, with correct ≤ answered; nothing changes |
| Chatbot.Session.Skip | chatbot.py:92-94 | skipping leaves score and total answered unchanged |
| Chatbot.Session.Answer | chatbot.py:96-104 | an answer adds exactly 1 to the total and 1 to the score iff the letter is the key. A wrong answer reports the key and the text of the option it labels. The explanation and the running score follow, and score ≤ total is kept |
| Chatbot.CorrectAtMostAnswered | chatbot.py:96-98 | over any sequence of choices the points scored never exceed the answers counted |
| Chatbot.AnsweredAppend | chatbot.py:96 | the answer count of two runs of choices is the sum of their counts |
| Chatbot.CorrectAppend | chatbot.py:97-98 | the score of two runs of choices is the sum of their scores |
| Chatbot.CountersStep | chatbot.py:96-98 | one more choice moves the counts by that choice alone |
| Chatbot.Shuffle | chatbot.py:81-82 | a round is some permutation of the bank (same multiset) |
| Chatbot.PermutationWellFormed | chatbot.py:81-82 | a shuffled copy of a well-formed bank has its length and only well-formed questions |
| Chatbot.RoundsPermute | chatbot.py:81-82 | one more shuffled round keeps every round a permutation of the bank |
| Chatbot.AskQuestion | chatbot.py:84-105 | one question: read one choice, then quit, skip or answer. The counters move by exactly that choice: one answer more for a letter, one point more when it is the key. The tokens read grow by it |
| Chatbot.PlayRound | chatbot.py:84-105 | the `for q in shuffled` loop asks a prefix of the round in order, one token read per question asked, and ends on "q", on end of input, or with the round complete. Counters grow by the answers and points of what was read |
| Chatbot.PlayQuiz | chatbot.py:80-105 | the outer loop: every round is a permutation of the bank, and the questions presented run through the rounds in order. The choices are a prefix of the accepted tokens of the input. On quit the tally is (answers counted, points scored) over all choices, with correct ≤ answered, and "q" is the last choice and the only one |
| Chatbot.QuitMarks | chatbot.py:88-90 | appending a round's choices keeps "q" absent, or places it last only |
| Chatbot.RoundStep | chatbot.py:80-84 | the questions presented in a round extend, strictly, those of the earlier rounds |
| Chatbot.ConcatSnoc | chatbot.py:80-84 | one more round appends its questions to all presented |
| Chatbot.RoundCounters | chatbot.py:96-98 | after a round the answers and points over all choices are those before plus the round's, and "q" stays absent or is last only |
| Chatbot.RunQuizLoop | chatbot.py:73-105 | the quiz over a freshly built bank of five distinct questions: each round presents each question of the bank exactly once. The session ends only on "q", as the last choice and the only one, with the tally of exactly the answers and points of the choices read. Otherwise the input ran out with no "q" read |
| Chatbot.DistinctOnce | chatbot.py:81-84 | in a sequence with no repeats each element occurs once |
| Chatbot.RoundPresentsEachOnce | chatbot.py:81-84 | a permutation of a bank without repeats has the bank's length and holds each of its questions exactly once |
| Text.Strip | chatbot.py:67 | `str.strip()`: no longer than the input, and the result neither starts nor ends with whitespace |
| Text.StripPadded | chatbot.py:67 | strip removes exactly the surrounding whitespace: a text without whitespace at its ends comes back from any padding |
| Text.Lower | chatbot.py:67 | `str.lower()` on ASCII letters: lower-casing A–Z only keeps the length |
| Text.Join | chatbot.py:62 | `"\n".join(lines)`: the lines with the separator between neighbours; SplitJoin shows splitting gives them back |
| Text.SplitJoin | chatbot.py:62 | joining lines that hold no separator and splitting at it gives the lines back |
| Text.NatToString | main.py:201 | `str(n)`: at least one digit, all digits, more than one exactly when n ≥ 10 |
| Text.IntToString | main.py:201 | `str(i)`: starts with "-" exactly when i is negative |
| Text.ParseInt | main.py:192 | an integer path parameter parses exactly when it is one or more digits, optionally after a minus sign; without the sign the value is not negative |
| Text.DigitsValueOfNat | main.py:201 | the digits printed for n spell n |
| Text.IntRoundTrip | main.py:192-201 | parsing a printed integer gives it back |
| Api.StatusCode | main.py:199-202 | every error is a 4xx or 5xx status: 404 not found, 422 invalid request, 500 uncaught exception |
| Api.NotFoundDetail | main.py:201 | the 404 message starts with "Question with ID " followed by the id in decimal (NotFoundDetailExample gives whole messages) |
| Api.NotFoundDetailNamesRange | main.py:201 | for every id and every bank size the 404 message ends with " Available IDs: 0-" and the last valid id in decimal |
| Api.NotFoundDetailExample | main.py:201 | the 404 message names the id and the last valid id: id 99 in a bank of 5 gives "Question with ID 99 not found. Available IDs: 0-4" |
| Api.QuestionToResponse | main.py:128-140 | the fields are exactly id, question_text, options, plus correct_option_key and explanation only with include_answer |
| Api.ResponseRoundTrip | main.py:128-140 | both responses read back to the id, text and options. The detail one reads back to the whole question, and removing its answer fields gives the plain one |
| Api.GetQuestion | main.py:191-203 | 404 with the id and the bank size exactly when the id is negative or ≥ the bank size; otherwise the fields without the answer |
| Api.GetQuestionDetail | main.py:217-232 | 404 exactly when the id is outside the bank; otherwise all five fields |
| Api.DetailExtendsQuestion | main.py:217-232 | the two lookups fail together. The detail is the bank's question at that id, and hiding its answer fields gives the plain lookup |
| Api.GetAllQuestions | main.py:177-188 | one response per question, in bank order, none with answer fields |
| Api.AllQuestionsAgree | main.py:185-188 | entry i of the listing is what looking up id i returns, and carries id i and question i's text and options |
| Api.GetStats | main.py:171-174 | the statistics object has the single field total_questions |
| Api.StatsCountListing | main.py:171-188 | total_questions equals the number of questions the listing returns |
| Api.GetRandomQuestion | main.py:206-214 | the response is the answerless lookup of some id in [0, len-1]. An empty bank makes `randint` raise: a 500, and only then |
| Api.AnswerPatternIsLetter | main.py:72 | `^[a-d]$` admits exactly the four option letters |
| Api.ValidateRequest | main.py:69-72 | a request passes exactly when question_id ≥ 0 and the answer is one of a–d. A rejected request names each failing field and no other |
| Api.SubmitAnswer | main.py:235-266 | 404 exactly for an id outside the bank; 500 exactly when the key labels no option. Otherwise the response holds the key, the text of the option it labels and the explanation |
| Api.LowerLetter | main.py:255 | an option letter is its own lower case |
| Api.ExactlyOneLetterCorrect | main.py:255 | for a well-formed question every letter is answered, and exactly one letter, the key, is correct |
| Api.ApiAgreesWithSession | main.py:254-266 | for any bank and any id holding a well-formed question, the API judges a letter exactly as the command-line session scores it, and reports the same key, correct text and explanation |
| Api.HandleSubmit | main.py:235-266 | the request model is validated first: a 422 exactly for an invalid request, and a valid one gets exactly the handler's reply |
| Api.SubmitOutcomes | main.py:235-266 | over a well-formed bank: 422 exactly for an invalid request, 404 exactly for a valid one past the bank, an answer otherwise |
| Api.SubmitExample | main.py:254-266 | answering "c" to the first seed question in a bank of five gives: correct, key "c", text ".py", its explanation. The loaded bank meets this (LoadQuestions) |
| Api.SubmitPastEndExample | main.py:248-252 | id 7 in a bank of five is a 404 naming id 7 and 5 questions |
| Api.SubmitBadLetterExample | main.py:72 | answer "e" is rejected as an invalid answer field |
| Api.LoadQuestions | main.py:29 | the service holds the five seed questions, reports five and resolves exactly ids 0–4. Submitting "c" for id 0 gets the correct answer ".py" with its explanation |
| Routing.ParamValueAt | main.py:191 | a `{question_id}` segment captures the path segment at its position |
| Routing.Dispatch | main.py:191-235 | a request reaches a handler exactly when some route matches it fully, and then one such route's handler. It gets 404 exactly when no route matches its path (405 otherwise) |
| Routing.Status | main.py:191-235 | every request gets 200, 404, 405, 422 or 500, and 405 only when some route matches its path |
| Routing.DeclaredRoutesOrder | main.py:145-235 | the route table `DeclaredRoutes` has one route per handler in decorator order. The lookup by id is declared right before the random question, and only the submit route is a POST |
| Routing.FirstMatch | main.py:191-235 | routes are tried in declaration order: the result is the first route matching method and path, and None only if none does |
| Routing.RandomUnreachableAsDeclared | main.py:191-214 | as declared, no request of any method and path reaches the random-question handler |
| Routing.RandomPathAsDeclared | main.py:191-214 | as declared, `GET /api/questions/random` goes to the lookup by id with "random", which is not an integer: 422 |
| Routing.RandomPathAsIntended | main.py:206-214 | with the random route first, `GET /api/questions/random` reaches its handler: 200, or 500 on an empty bank |
| Routing.SwapFirstMatch | main.py:191-214 | swapping two neighbouring routes moves a first match that is not on both only between them |
| Routing.SamePathMatch | main.py:191-235 | two tables of the same routes agree on whether some route matches the path (405 against 404) |
| Routing.SwapNeighbours | main.py:191-214 | swapping two neighbouring routes changes no dispatch except of requests that match both |
| Routing.RandomRouteMatches | main.py:206 | only `GET /api/questions/random` fully matches the random route |
| Routing.IntendedChangesOnlyRandom | main.py:191-214 | moving the random route first changes the dispatch of no request other than `GET /api/questions/random` |
| Routing.LookupByIdAsDeclared | main.py:191-203 | a decimal id path reaches the lookup by id with that id's digits |
| Routing.LookupByIdAsIntended | main.py:191-203 | with the random route first, `GET /api/questions/<n>` still gives 200 for n inside the bank and 404 past it |

## Left out

- Console output is not modelled: the greeting, prompts, the re-prompt message, the "Skipped." line and the final message. What an answer prints is returned as a `Feedback` value instead of being printed.
- End of input: `input()` raising EOFError (or an interrupt) is modelled as the input running out, which ends the quiz with no tally (None). The Python program would crash with a traceback.
- `random.shuffle` and `random.randint` are an arbitrary permutation and an arbitrary in-range id. Uniformity cannot be stated.
- Text.Lower: maps only ASCII A–Z. No other character lower-cases to one of a, b, c, d, q or s, so what `ask_for_choice` accepts is unaffected. The full Unicode case mapping is not modelled.
- Chatbot.FormatQuestion: requires at most four options. With more, the source raises IndexError on `LETTER_KEYS[idx]` after printing nothing, and that crash is not modelled.
- The FastAPI application, the CORS middleware and the uvicorn start are framework plumbing and are not modelled. So are `async`, the root and health payloads, the response models' schema examples, and the response models' re-validation of handler output.
- Text.ParseInt: accepts an optional minus sign followed by decimal digits. Pydantic's lax integer parsing also accepts forms such as surrounding whitespace or a leading "+". Those are not modelled, and neither is JSON body decoding or a body field of the wrong type.
- Routing.FirstMatch: models method and path matching only. Trailing-slash redirects, HEAD/OPTIONS handling and the documentation routes are not modelled.
- The handler's own `question_id < 0` check in `submit_answer` is modelled, although validation already rejects such requests. `Api.SubmitOutcomes` shows that check is never reached.
- Handlers read a module-level bank that never changes; they take it as a parameter. The handlers other than the random pick are functions, so they give the same output for the same input. The random pick may answer differently each time.
- Chatbot.PlayQuiz: requires a non-empty bank. On an empty bank the source's `while True` runs an empty `for` forever without reading input. That cannot happen, because `run_quiz_loop` always builds the five seed questions. Chatbot.PlayRound has the same requirement, for the same reason.

## Findings

| source | as written | input that shows it | evidently intended | confidence | as-written member | corrected member |
|---|---|---|---|---|---|---|
| main.py:191-214 | the route `/api/questions/{question_id}` is declared before `/api/questions/random`. Routes are tried in order and the parameter matches any segment, so "random" is taken as a question id and fails integer parsing | `GET /api/questions/random` gets 422, and the random-question handler is unreachable | declare the random route first. It is then reachable, and every other request is dispatched as before | high; not executed | Routing.RandomPathAsDeclared | Routing.RandomPathAsIntended |
