/**
 * `generate_data_sample`: reads the API key from the environment, builds the
 * fixed prompt around the record count and the schema text, sends it to the
 * chat model once and hands back the model's content untouched.
 */
module SampleGenerator {
  import opened Wrappers
  import opened Strings
  import Decimal

  /** The environment variable the key is read from. */
  const ApiKeyVariable := "GEMINI_API_KEY"

  /** `os.getenv(name)`: the value, or `None` when the variable is unset. */
  function GetEnv(env: map<string, string>, name: string): (r: Option<string>)
    ensures r.Some? <==> name in env
    ensures r.Some? ==> r.value == env[name]
  {
    if name in env then Some(env[name]) else None
  }

  function Spaces(n: nat): (s: string)
    ensures |s| == n && forall i :: 0 <= i < n ==> s[i] == ' '
  {
    seq(n, _ => ' ')
  }

  /** The template text before the count. */
  const Head := "Generate "

  /** The template text between the count and the schema. */
  const Middle := MiddleLead + (Spaces(28) + ("\n" + (Spaces(26) + "Format: ")))

  const MiddleLead := " example records with the following format.\n"

  /** The template text after the schema: the output-format instructions. */
  const Tail :=
    "\n\n"
    + Spaces(26) + "The output should be formatted as line delimited json only.\n"
    + Spaces(26) + "Respond ONLY with valid JSON. Do not use markdown code blocks or triple backticks.\n"
    + Spaces(26) + "\n"
    + Spaces(26)

  /** The f-string sent to the model. */
  function Prompt(numRecords: int, inputUserSchema: string): string
  {
    Head + (Decimal.Render(numRecords) + (Middle + (inputUserSchema + Tail)))
  }

  /** Length of the run of digits `s` starts with. */
  function DigitRun(s: string): (n: nat)
    ensures n <= |s| && Decimal.AllDigits(s[..n])
    ensures n < |s| ==> !Decimal.IsDigit(s[n])
    decreases |s|
  {
    if s != [] && Decimal.IsDigit(s[0]) then 1 + DigitRun(s[1..]) else 0
  }

  /** Reads a prompt back as its record count and schema text, if it has the template's shape. */
  function ParsePrompt(p: string): Option<(int, string)>
  {
    ParseTemplate(p, Head, Middle, Tail)
  }

  /** Reads `head + count + middle + schema + tail` back as the count and the schema. */
  function ParseTemplate(p: string, head: string, middle: string, tail: string): Option<(int, string)>
  {
    if |p| < |head| || p[..|head|] != head then None
    else
      var rest := p[|head|..];
      var sign := if rest != [] && rest[0] == '-' then 1 else 0;
      var countLength := sign + DigitRun(rest[sign..]);
      match Decimal.Parse(rest[..countLength])
      case None => None
      case Some(n) =>
        var after := rest[countLength..];
        if |after| < |middle| + |tail| || after[..|middle|] != middle || after[|after| - |tail|..] != tail then None
        else Some((n, after[|middle|..|after| - |tail|]))
  }

  lemma {:induction false} DigitRunOf(digits: string, rest: string)
    requires Decimal.AllDigits(digits)
    requires rest != [] && !Decimal.IsDigit(rest[0])
    ensures DigitRun(digits + rest) == |digits|
    decreases |digits|
  {
    var s := digits + rest;
    if digits != [] {
      assert s[0] == digits[0] && Decimal.IsDigit(s[0]);
      assert s[1..] == digits[1..] + rest;
      assert Decimal.AllDigits(digits[1..]) by {
        forall i | 0 <= i < |digits[1..]| ensures Decimal.IsDigit(digits[1..][i]) {
          assert digits[1..][i] == digits[i + 1];
        }
      }
      DigitRunOf(digits[1..], rest);
      assert DigitRun(s) == 1 + DigitRun(s[1..]);
    } else {
      assert s == rest;
    }
  }

  /** The three pieces of `front + (middle + back)` are found again by position. */
  lemma Pieces(front: string, middle: string, back: string)
    ensures (front + (middle + back))[..|front|] == front
    ensures (front + (middle + back))[|front|..] == middle + back
    ensures (middle + back)[..|middle|] == middle
    ensures (middle + back)[|middle|..] == back
  {
  }

  /** The count is read back from the front of the text that follows the template's head. */
  lemma CountReadBack(numRecords: int, after: string)
    requires after != [] && !Decimal.IsDigit(after[0]) && after[0] != '-'
    ensures var rest := Decimal.Render(numRecords) + after;
            var sign := if rest != [] && rest[0] == '-' then 1 else 0;
            var countLength := sign + DigitRun(rest[sign..]);
            && countLength == |Decimal.Render(numRecords)|
            && Decimal.Parse(rest[..countLength]) == Some(numRecords)
            && rest[countLength..] == after
  {
    var count := Decimal.Render(numRecords);
    var rest := count + after;
    var sign := if numRecords < 0 then 1 else 0;
    assert rest[0] == count[0];
    assert rest[sign..] == count[sign..] + after;
    DigitRunOf(count[sign..], after);
    Pieces(count, after, []);
    assert rest == count + (after + []);
    Decimal.RenderRoundTrip(numRecords);
  }

  /** Any template whose middle part starts with neither a digit nor a minus sign reads back its inputs. */
  lemma TemplateRoundTrip(numRecords: int, schema: string, head: string, middle: string, tail: string)
    requires middle != [] && !Decimal.IsDigit(middle[0]) && middle[0] != '-'
    ensures ParseTemplate(head + (Decimal.Render(numRecords) + (middle + (schema + tail))), head, middle, tail)
              == Some((numRecords, schema))
  {
    var count := Decimal.Render(numRecords);
    var after := middle + (schema + tail);
    var p := head + (count + after);
    Pieces(head, count, after);
    assert after[0] == middle[0];
    CountReadBack(numRecords, after);
    assert p[|head|..] == count + after;
    ParseTemplateOnce(p, head, middle, tail, numRecords, schema);
  }

  /** One reading of a text already known to start with `head` and the count. */
  lemma ParseTemplateOnce(p: string, head: string, middle: string, tail: string, numRecords: int, schema: string)
    requires |p| >= |head| && p[..|head|] == head
    requires var rest := p[|head|..];
             var sign := if rest != [] && rest[0] == '-' then 1 else 0;
             var countLength := sign + DigitRun(rest[sign..]);
             && Decimal.Parse(rest[..countLength]) == Some(numRecords)
             && rest[countLength..] == middle + (schema + tail)
    ensures ParseTemplate(p, head, middle, tail) == Some((numRecords, schema))
  {
    MiddleAndTail(middle, schema, tail);
  }

  /**
   * The prompt holds the count and the schema verbatim, in their places in the
   * template: reading it back gives exactly the two inputs.
   */
  lemma PromptRoundTrip(numRecords: int, inputUserSchema: string)
    ensures ParsePrompt(Prompt(numRecords, inputUserSchema)) == Some((numRecords, inputUserSchema))
  {
    assert MiddleLead[0] == ' ';
    assert Middle[0] == MiddleLead[0];
    TemplateRoundTrip(numRecords, inputUserSchema, Head, Middle, Tail);
  }

  lemma MiddleAndTail(middle: string, schema: string, tail: string)
    ensures var after := middle + (schema + tail);
            && |after| >= |middle| + |tail|
            && after[..|middle|] == middle
            && after[|after| - |tail|..] == tail
            && after[|middle|..|after| - |tail|] == schema
  {
    var after := middle + (schema + tail);
    assert after[|after| - |tail|..] == tail;
    assert after[|middle|..|after| - |tail|] == schema;
  }

  /** `str(num_records)` and the schema text both appear in the prompt. */
  lemma PromptEmbedsInputs(numRecords: int, inputUserSchema: string)
    ensures Occurs(Decimal.Render(numRecords), Prompt(numRecords, inputUserSchema))
    ensures Occurs(inputUserSchema, Prompt(numRecords, inputUserSchema))
  {
    var count := Decimal.Render(numRecords);
    OccursSelf(count);
    OccursBefore(count, count, Middle + (inputUserSchema + Tail));
    OccursAfter(count, Head, count + (Middle + (inputUserSchema + Tail)));
    OccursSelf(inputUserSchema);
    OccursBefore(inputUserSchema, inputUserSchema, Tail);
    OccursAfter(inputUserSchema, Middle, inputUserSchema + Tail);
    OccursAfter(inputUserSchema, count, Middle + (inputUserSchema + Tail));
    OccursAfter(inputUserSchema, Head, count + (Middle + (inputUserSchema + Tail)));
  }

  /** What one `invoke` sends: the key the client was built with and the prompt. */
  datatype Request = Request(apiKey: Option<string>, prompt: string)

  /**
   * The chat model on the far side of the client: `answer` is what the service
   * does with a request (the response content, or the message of the exception
   * the client raises), and `received` records every request sent so far.
   */
  class ChatModel {
    const answer: Request -> Result<string, string>
    var received: seq<Request>

    constructor (answer: Request -> Result<string, string>)
      ensures this.answer == answer && received == []
    {
      this.answer := answer;
      received := [];
    }

    /** `llm.invoke(prompt)`. */
    method Invoke(request: Request) returns (response: Result<string, string>)
      modifies this
      ensures received == old(received) + [request]
      ensures response == answer(request)
    {
      received := received + [request];
      response := answer(request);
    }
  }

  /** The request `generate_data_sample` sends for these inputs. */
  function RequestFor(env: map<string, string>, numRecords: int, inputUserSchema: string): (r: Request)
    ensures r.apiKey == GetEnv(env, ApiKeyVariable)
    ensures ParsePrompt(r.prompt) == Some((numRecords, inputUserSchema))
  {
    PromptRoundTrip(numRecords, inputUserSchema);
    Request(GetEnv(env, ApiKeyVariable), Prompt(numRecords, inputUserSchema))
  }

  /**
   * `generate_data_sample`: exactly one request reaches the model, carrying the
   * key as found (even when unset) and the prompt; its content, or the error it
   * raised, is the result, unchanged.
   */
  method GenerateDataSample(env: map<string, string>, numRecords: int, inputUserSchema: string, llm: ChatModel)
    returns (content: Result<string, string>)
    modifies llm
    ensures llm.received == old(llm.received) + [RequestFor(env, numRecords, inputUserSchema)]
    ensures content == llm.answer(RequestFor(env, numRecords, inputUserSchema))
  {
    var googleApiKey := GetEnv(env, ApiKeyVariable);
    var prompt := Prompt(numRecords, inputUserSchema);
    content := llm.Invoke(Request(googleApiKey, prompt));
  }
}
