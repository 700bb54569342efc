# KQL syntax validator — Dafny model

The KQL assistant agent exposes one tool to its language model whose reply
depends only on its input: `validate_kql_syntax(kql_query)`. It runs two
textual checks in order. The first reports a query that is empty or all
whitespace as "Query is empty". The second reports "Unmatched parentheses"
when the query's `(` count differs from its `)` count. If either check
fires, the tool returns a JSON-like string that holds the error list written
with Python's list `repr`, such as `{"valid": false, "errors": ['Query is empty']}`.
The single quotes make this not strict JSON. Otherwise the tool returns the
fixed string `{"valid": true, "message": "Query syntax appears valid"}`.

The project has three modules:

- `PyText` (`pytext.dfy`) covers the parts of Python's `str` that the tool
  uses. `IsSpace` is the `str.isspace` whitespace set. The others are
  `LStrip`/`RStrip`/`Strip` (argument-less `strip`), single-character
  `Count`, and `IsBlank`.
- `PyRepr` (`pyrepr.dfy`) covers Python's `repr` of a list of strings,
  which the f-string at line 215 interpolates. It also has a reader,
  `ParseList`, that recovers the list from that text, so the rendering
  has a proved inverse.
- `KqlValidator` (`kql_validator.dfy`) covers the tool. `Check` runs the
  two checks and returns a `Verdict` (`Valid | Invalid(errors)`). `Render`
  builds the reply text and `ValidateKqlSyntax` composes the two.
  `ParseReply` reads a verdict back out of a reply. Also here
  is a reference predicate `WellNested` for real parenthesis nesting, so
  the model can say what the count check does and does not catch.

Assumptions:

- Whitespace is Python 3's full set of characters that `str.isspace()`
  accepts and `str.strip()` removes. That is U+0009–U+000D, U+001C–U+0020,
  U+0085, U+00A0, U+1680, U+2000–U+200A, U+2028, U+2029, U+202F, U+205F and
  U+3000.
- `(` and `)` are not whitespace. This follows from `IsSpace`, and
  `BlankMatchesCounts` relies on it.
- The blank test is modelled as written, `Strip(q) == []`.
  `Strip`'s contract proves this is the same as "every character is
  whitespace".

The tool is a method of the agent class, but it never reads the agent's
`token_provider` or `cloud_config`. The model therefore takes only the query.
Since every member is a pure function, equal inputs give equal replies, and
that needs no separate lemma.

The constructor stores `token_provider` and `cloud_config`
(backend/agents/kql_assistant_agent.py:43-44). No tool in the agent reads
them again, and the agent's code does no token exchange or caching of its
own.

## Model

| member | source | states |
|---|---|---|
| PyText.Count | backend/agents/kql_assistant_agent.py:211 | `str.count` of one character returns at most the string's length, and returns zero exactly when the character does not occur |
| PyText.CountIsMultiplicity | backend/agents/kql_assistant_agent.py:211 | the count equals the character's multiplicity in the string's multiset, which is an independent definition of counting |
| PyText.CountAppend | backend/agents/kql_assistant_agent.py:211 | counting is additive under concatenation |
| PyText.LStrip | backend/agents/kql_assistant_agent.py:208 | `lstrip` returns a suffix, and the part it removes is all whitespace. The result is empty or starts with a non-whitespace character, so the removed prefix is the longest one possible |
| PyText.RStrip | backend/agents/kql_assistant_agent.py:208 | `rstrip` returns a prefix, and the part it removes is all whitespace. The result is empty or ends with a non-whitespace character |
| PyText.IsSpace | backend/agents/kql_assistant_agent.py:208 | the six ASCII whitespace characters are whitespace, no printable ASCII character is, and in particular neither parenthesis is |
| PyText.Strip | backend/agents/kql_assistant_agent.py:208 | `strip` returns the empty string exactly when every character is whitespace, in both directions, and a non-empty result neither starts nor ends with whitespace |
| PyText.BlankAppend | backend/agents/kql_assistant_agent.py:208 | a concatenation is blank if and only if both parts are blank |
| PyText.RStripEmptyIffBlank | backend/agents/kql_assistant_agent.py:208 | `rstrip` returns the empty string exactly on an all-whitespace input |
| PyText.LStripKeepsBlank | backend/agents/kql_assistant_agent.py:208 | `lstrip` keeps a string blank, and keeps it non-blank |
| PyText.BlankCountsZero | backend/agents/kql_assistant_agent.py:208-211 | a blank string contains no non-whitespace character, so counting one gives zero |
| KqlValidator.Errors | backend/agents/kql_assistant_agent.py:206-212 | the error list is `["Query is empty"]` for a blank query, `["Unmatched parentheses"]` for a non-blank query with unequal counts, and empty otherwise. The two checks never fire together |
| KqlValidator.Check | backend/agents/kql_assistant_agent.py:206-216 | an invalid verdict carries exactly one error, and it is one of the two known messages |
| KqlValidator.BlankMatchesCounts | backend/agents/kql_assistant_agent.py:206-212 | a blank query has zero `(` and zero `)`, so it always passes the parenthesis check |
| KqlValidator.BlankQueryReportsEmpty | backend/agents/kql_assistant_agent.py:208-209 | an empty or whitespace-only query yields exactly `Invalid(["Query is empty"])` |
| KqlValidator.CountMismatchReportsUnmatched | backend/agents/kql_assistant_agent.py:211-212 | unequal `(` and `)` counts yield exactly `Invalid(["Unmatched parentheses"])` |
| KqlValidator.ValidIff | backend/agents/kql_assistant_agent.py:206-217 | the verdict is valid if and only if the query is non-blank and the two counts are equal |
| KqlValidator.EmptyQueryVerdict | backend/agents/kql_assistant_agent.py:208-212 | the empty string yields `["Query is empty"]` and nothing else |
| KqlValidator.NestsFromCounts | backend/agents/kql_assistant_agent.py:211 | a parenthesis scan that starts at depth `d` and ends balanced has seen `d` more `)` than `(` |
| KqlValidator.WellNestedIsValid | backend/agents/kql_assistant_agent.py:211 | every non-blank, properly nested query is reported valid, so the count check never rejects correct nesting |
| KqlValidator.ReversedParensAccepted | backend/agents/kql_assistant_agent.py:211 | the check counts and does not test nesting: `)(` is reported valid but is not well nested |
| KqlValidator.ConcatKeepsValid | backend/agents/kql_assistant_agent.py:208-212 | joining two non-blank queries that each pass the count check gives a valid query |
| KqlValidator.KnownErrorsVerbatim | backend/agents/kql_assistant_agent.py:209-215 | every error a verdict of `Check` can carry needs no escaping in Python's `repr`, so the list `repr` only wraps it in single quotes |
| KqlValidator.KnownErrorsAreVerbatim | backend/agents/kql_assistant_agent.py:209-212 | each of the two message constants is printable ASCII with no quote or backslash |
| PyRepr.QuoteIndex | backend/agents/kql_assistant_agent.py:215 | gives the position of the first single quote in a string, or its length when there is none |
| PyRepr.QuoteIndexSkipsItem | backend/agents/kql_assistant_agent.py:215 | in a quoted item that has no quote inside, the first quote after the opening one is the closing one |
| PyRepr.ParseLastItem | backend/agents/kql_assistant_agent.py:215 | a lone quoted item reads back as a one-item list |
| PyRepr.ParseItemThenMore | backend/agents/kql_assistant_agent.py:215 | a quoted item followed by `, ` reads back as that item in front of whatever the rest reads back as |
| PyRepr.ReprItems | backend/agents/kql_assistant_agent.py:215 | reading the items of a list `repr` back gives the original items, in order |
| PyRepr.ReprList | backend/agents/kql_assistant_agent.py:215 | `ParseList(repr(items)) == Some(items)`: the list `repr` loses nothing |
| PyRepr.ReprListSingle | backend/agents/kql_assistant_agent.py:215 | Python's `repr` of a one-item list of such a string is the string between `['` and `']` |
| KqlValidator.Render | backend/agents/kql_assistant_agent.py:214-217 | every verdict can be read back from its rendered reply: `ParseReply(Render(v)) == Some(v)` |
| KqlValidator.RenderSingle | backend/agents/kql_assistant_agent.py:215 | a one-error verdict renders as `{"valid": false, "errors": ['<error>']}` |
| KqlValidator.RenderEmptyQuery | backend/agents/kql_assistant_agent.py:208-215 | the "Query is empty" verdict renders as exactly `{"valid": false, "errors": ['Query is empty']}` |
| KqlValidator.RenderUnmatched | backend/agents/kql_assistant_agent.py:211-215 | the "Unmatched parentheses" verdict renders as exactly `{"valid": false, "errors": ['Unmatched parentheses']}` |
| KqlValidator.ValidateKqlSyntax | backend/agents/kql_assistant_agent.py:192-217 | the tool's reply is one of three fixed strings, chosen by blankness and by whether the two counts are equal. The valid reply is the constant `ValidOutput`, and the verdict `Check(q)` can be read back from every reply |
| KqlValidator.ClassifyVerdict | backend/agents/kql_assistant_agent.py:206-217 | every query falls into exactly one of three classes (blank, non-blank with a count mismatch, non-blank with equal counts), and each class has a fixed verdict |
| KqlValidator.ReplyDeterminesVerdict | backend/agents/kql_assistant_agent.py:206-217 | two queries get the same reply text if and only if they get the same verdict, so the rendering loses nothing |

## Left out

- `discover_workspaces`, `execute_kql_query` and `get_table_schema` (backend/agents/kql_assistant_agent.py:91-187) are left out. They return hard-coded placeholder JSON and contain no logic.
- `__init__`, `_get_instructions`, `run` and `run_stream` (backend/agents/kql_assistant_agent.py:27-86, 219-244) are left out. They only wrap an external chat-agent framework and an Azure OpenAI client, whose code is not available.
- The `async` keyword and the `@ai_function` registration of the validator are left out. They affect how the tool is called, not what it returns.
- backend/main.py is left out. It holds HTTP endpoints, environment reads, CORS set-up and a network call to a model service.
- tests/integration/test_api.py is left out. It holds live HTTP tests against a deployed service.
- The token provider's and cloud configuration's own behaviour is left out. The agent only stores them and hands the token callback to the chat client, and their code is not available.
- PyText.IsSpace: a Dafny `char` cannot be a lone surrogate (U+D800-U+DFFF), but a Python `str` can hold one. Such queries are not modelled. The verdict would be the same, because a surrogate is neither whitespace nor a parenthesis.
- KqlValidator.Render and PyRepr.ReprList: Python's `repr` escaping (quote switching, backslash and non-printable escapes) is modelled only for items that need none. The only items the tool ever puts in the list are its two constant messages, and `KnownErrorsVerbatim` shows both qualify.
- PyText.Count: models only a one-character needle, because that is the only form the tool uses.
- PyText.IsSpace: fixes Python 3's whitespace set as listed above. A Python build with a different Unicode database could differ for characters outside ASCII.
