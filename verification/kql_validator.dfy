/** The KQL assistant agent's `validate_kql_syntax` tool: a purely textual
    check of a query that reports it empty, reports its parentheses unmatched
    by count, or declares it syntactically plausible, and renders that verdict
    as the string the agent hands back to the language model. */
module KqlValidator {
  import opened PyText
  import opened PyRepr
  import opened Options

  const EmptyQueryError: string := "Query is empty"
  const UnmatchedParenthesesError: string := "Unmatched parentheses"

  /** The fixed reply for a query that passes both checks,
      `{"valid": true, "message": "Query syntax appears valid"}`. */
  const ValidOutput: string := "{\"valid\": true, " + "\"message\": \"Query syntax appears valid\"}"

  /** The outcome of validation, before rendering: the error list is kept in
      the order the checks appended to it. */
  datatype Verdict = Valid | Invalid(errors: seq<string>)

  /** One of the two messages the validator can produce. */
  predicate IsKnownError(e: string) {
    e == EmptyQueryError || e == UnmatchedParenthesesError
  }

  /** The parenthesis check passes: as many `(` as `)`, wherever they stand. */
  predicate CountsMatch(q: string) {
    Count(q, '(') == Count(q, ')')
  }

  /** The error list as the two checks build it, in source order: the blank
      check appends "Query is empty", then the count check appends "Unmatched
      parentheses". A blank query has no parentheses, so the checks never
      fire together. */
  function Errors(q: string): (r: seq<string>)
    ensures IsBlank(q) ==> r == [EmptyQueryError]
    ensures !IsBlank(q) && !CountsMatch(q) ==> r == [UnmatchedParenthesesError]
    ensures !IsBlank(q) && CountsMatch(q) ==> r == []
  {
    var empty := if Strip(q) == [] then [EmptyQueryError] else [];
    var unmatched := if Count(q, '(') != Count(q, ')') then [UnmatchedParenthesesError] else [];
    if IsBlank(q) then
      BlankMatchesCounts(q);
      assert empty + unmatched == empty;
      empty + unmatched
    else
      assert empty + unmatched == unmatched;
      empty + unmatched
  }

  /** The verdict: invalid with the error list when it is non-empty. An
      invalid verdict carries exactly one error, and it is a known one. */
  function Check(q: string): (r: Verdict)
    ensures r.Invalid? ==> |r.errors| == 1
    ensures r.Invalid? ==> forall i :: 0 <= i < |r.errors| ==> IsKnownError(r.errors[i])
  {
    var errors := Errors(q);
    if errors != [] then Invalid(errors) else Valid
  }

  /** Parentheses are not whitespace, so a blank query has none of either kind
      and always passes the count check. */
  lemma BlankMatchesCounts(q: string)
    requires IsBlank(q)
    ensures Count(q, '(') == 0 && Count(q, ')') == 0
  {
    BlankCountsZero(q, '(');
    BlankCountsZero(q, ')');
  }

  /** An empty or whitespace-only query is reported as empty, and only as empty. */
  lemma BlankQueryReportsEmpty(q: string)
    requires IsBlank(q)
    ensures Check(q) == Invalid([EmptyQueryError])
  {
    BlankMatchesCounts(q);
    assert Strip(q) == [];
    assert Count(q, '(') == Count(q, ')');
    var errors :=
      (if Strip(q) == [] then [EmptyQueryError] else [])
      + (if Count(q, '(') != Count(q, ')') then [UnmatchedParenthesesError] else []);
    assert errors == [EmptyQueryError] + [];
    assert errors == [EmptyQueryError];
  }

  /** Unequal counts of `(` and `)` are reported as unmatched parentheses,
      and the query cannot then be blank, so that is the only error. */
  lemma CountMismatchReportsUnmatched(q: string)
    requires Count(q, '(') != Count(q, ')')
    ensures Check(q) == Invalid([UnmatchedParenthesesError])
  {
    if IsBlank(q) {
      BlankMatchesCounts(q);
    }
  }

  /** The verdict is valid exactly when the query is non-blank and the two
      counts agree. */
  lemma ValidIff(q: string)
    ensures Check(q) == Valid <==> !IsBlank(q) && CountsMatch(q)
  {
  }

  /** The empty query gets exactly the one "Query is empty" error. */
  lemma EmptyQueryVerdict()
    ensures Check("") == Invalid(["Query is empty"])
  {
    BlankQueryReportsEmpty("");
  }

  /** Proper nesting, as a left-to-right scan: `depth` open parentheses are
      pending, a `)` must close one of them, and none may remain at the end. */
  predicate NestsFrom(s: string, depth: nat)
    decreases |s|
  {
    if s == [] then depth == 0
    else if s[0] == '(' then NestsFrom(s[1..], depth + 1)
    else if s[0] == ')' then depth > 0 && NestsFrom(s[1..], depth - 1)
    else NestsFrom(s[1..], depth)
  }

  /** Every parenthesis is closed after it was opened. */
  predicate WellNested(s: string) {
    NestsFrom(s, 0)
  }

  /** A scan that ends balanced has seen `depth` more closings than openings. */
  lemma {:induction false} NestsFromCounts(s: string, depth: nat)
    requires NestsFrom(s, depth)
    ensures depth + Count(s, '(') == Count(s, ')')
  {
    if s != [] {
      if s[0] == '(' {
        NestsFromCounts(s[1..], depth + 1);
      } else if s[0] == ')' {
        NestsFromCounts(s[1..], depth - 1);
      } else {
        NestsFromCounts(s[1..], depth);
      }
    }
  }

  /** The count check never rejects a properly nested query: every non-blank
      well-nested query is valid. */
  lemma WellNestedIsValid(q: string)
    requires !IsBlank(q) && WellNested(q)
    ensures Check(q) == Valid
  {
    NestsFromCounts(q, 0);
    ValidIff(q);
  }

  /** The check counts rather than matches: `)(` is reported valid although
      its parentheses are not nested. */
  lemma ReversedParensAccepted()
    ensures Check(")(") == Valid
    ensures !WellNested(")(")
  {
    var q := ")(";
    assert !IsSpace(q[0]);
    ValidIff(q);
  }

  /** Concatenating two non-blank queries that pass the count check gives a
      valid query, since counts add. */
  lemma ConcatKeepsValid(a: string, b: string)
    requires !IsBlank(a) && CountsMatch(a)
    requires !IsBlank(b) && CountsMatch(b)
    ensures Check(a + b) == Valid
  {
    CountAppend(a, b, '(');
    CountAppend(a, b, ')');
    BlankAppend(a, b);
    ValidIff(a + b);
  }

  /** Both messages survive `repr` unescaped. */
  lemma KnownErrorsAreVerbatim()
    ensures ReprVerbatim(EmptyQueryError) && ReprVerbatim(UnmatchedParenthesesError)
  {
  }

  /** So does every error a verdict of `Check` can carry. */
  lemma KnownErrorsVerbatim(v: Verdict)
    requires v.Invalid? ==> forall i :: 0 <= i < |v.errors| ==> IsKnownError(v.errors[i])
    ensures v.Invalid? ==> AllVerbatim(v.errors)
  {
    KnownErrorsAreVerbatim();
  }

  /** The reply's text in front of the error list for an invalid verdict. */
  const InvalidHead: string := "{\"valid\": false, \"errors\": "

  /** The returned text: the fixed valid message, or the error list placed
      into the JSON-like template with Python's list `repr` (single quotes,
      so not strict JSON). Rendering loses nothing: `ParseReply` recovers
      the verdict. */
  function Render(v: Verdict): (r: string)
    requires v.Invalid? ==> AllVerbatim(v.errors)
    ensures ParseReply(r) == Some(v)
  {
    match v
    case Valid => ValidOutput
    case Invalid(errors) =>
      var list := ReprList(errors);
      var out := InvalidHead + list + "}";
      assert out[10] == 'f' && ValidOutput[10] == 't';
      assert out[..|InvalidHead|] == InvalidHead;
      assert out[|InvalidHead|..|out| - 1] == list;
      out
  }

  /** Reads a verdict back out of a reply: the inverse of `Render`. */
  function ParseReply(out: string): Option<Verdict> {
    if out == ValidOutput then Some(Valid)
    else if |out| > |InvalidHead| && out[..|InvalidHead|] == InvalidHead && out[|out| - 1] == '}' then
      match ParseList(out[|InvalidHead|..|out| - 1])
      case Some(errors) => Some(Invalid(errors))
      case None => None
    else None
  }

  /** The template filled with a one-item list, spelled out. */
  lemma SingleReplyText(e: string)
    ensures InvalidHead + ("['" + e + "']") + "}" == "{\"valid\": false, \"errors\": ['" + e + "']}"
  {
  }

  /** A one-error verdict renders as that error, single-quoted, inside the
      brackets of the template. */
  lemma RenderSingle(e: string)
    requires ReprVerbatim(e)
    ensures Render(Invalid([e])) == "{\"valid\": false, \"errors\": ['" + e + "']}"
  {
    ReprListSingle(e);
    assert Render(Invalid([e])) == InvalidHead + ReprList([e]) + "}";
    SingleReplyText(e);
  }

  /** The template filled with the "Query is empty" list, spelled out. */
  lemma EmptyQueryReplyText()
    ensures InvalidHead + "['" + EmptyQueryError + "']" + "}"
         == "{\"valid\": false, \"errors\": ['Query is empty']}"
  {
  }

  /** The template filled with the "Unmatched parentheses" list, spelled out. */
  lemma UnmatchedReplyText()
    ensures InvalidHead + "['" + UnmatchedParenthesesError + "']" + "}"
         == "{\"valid\": false, \"errors\": ['Unmatched parentheses']}"
  {
  }

  /** The reply for the "Query is empty" verdict, character for character. */
  lemma RenderEmptyQuery()
    ensures Render(Invalid([EmptyQueryError]))
         == "{\"valid\": false, \"errors\": ['Query is empty']}"
  {
    KnownErrorsAreVerbatim();
    var list := "['" + EmptyQueryError + "']";
    assert ReprList([EmptyQueryError]) == list by {
      ReprListSingle(EmptyQueryError);
    }
    assert Render(Invalid([EmptyQueryError])) == InvalidHead + list + "}";
    EmptyQueryReplyText();
  }

  /** The reply for the "Unmatched parentheses" verdict, character for character. */
  lemma RenderUnmatched()
    ensures Render(Invalid([UnmatchedParenthesesError]))
         == "{\"valid\": false, \"errors\": ['Unmatched parentheses']}"
  {
    KnownErrorsAreVerbatim();
    var list := "['" + UnmatchedParenthesesError + "']";
    assert ReprList([UnmatchedParenthesesError]) == list by {
      ReprListSingle(UnmatchedParenthesesError);
    }
    assert Render(Invalid([UnmatchedParenthesesError])) == InvalidHead + list + "}";
    UnmatchedReplyText();
  }

  /** `validate_kql_syntax(kql_query)`: the whole tool, check then render.
      Its three possible replies are fixed strings chosen by the query alone,
      and the verdict can be read back from the reply. */
  function ValidateKqlSyntax(q: string): (out: string)
    ensures IsBlank(q) ==>
      out == "{\"valid\": false, \"errors\": ['Query is empty']}"
    ensures !IsBlank(q) && !CountsMatch(q) ==>
      out == "{\"valid\": false, \"errors\": ['Unmatched parentheses']}"
    ensures !IsBlank(q) && CountsMatch(q) ==> out == ValidOutput
    ensures ParseReply(out) == Some(Check(q))
  {
    ClassifyVerdict(q);
    KnownErrorsVerbatim(Check(q));
    if IsBlank(q) then
      RenderEmptyQuery();
      Render(Check(q))
    else if !CountsMatch(q) then
      RenderUnmatched();
      Render(Check(q))
    else
      Render(Check(q))
  }

  /** The reply determines the verdict: two queries get the same text exactly
      when they get the same verdict. */
  lemma ReplyDeterminesVerdict(q1: string, q2: string)
    ensures ValidateKqlSyntax(q1) == ValidateKqlSyntax(q2) <==> Check(q1) == Check(q2)
  {
    KnownErrorsVerbatim(Check(q1));
    KnownErrorsVerbatim(Check(q2));
  }

  /** Each query falls into exactly one of the three reply classes. */
  lemma ClassifyVerdict(q: string)
    ensures IsBlank(q) ==> Check(q) == Invalid([EmptyQueryError])
    ensures !IsBlank(q) && !CountsMatch(q) ==> Check(q) == Invalid([UnmatchedParenthesesError])
    ensures !IsBlank(q) && CountsMatch(q) ==> Check(q) == Valid
  {
    if IsBlank(q) {
      BlankQueryReportsEmpty(q);
    } else if !CountsMatch(q) {
      CountMismatchReportsUnmatched(q);
    } else {
      ValidIff(q);
    }
  }
}
