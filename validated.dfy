/**
 * The checks the repository's tests assert but `generator.py` does not make:
 * an empty table, a row lacking a key, a blank name and a repeated name for the
 * formatter; a missing key, a count outside 1..100 and a blank schema for the
 * generator. These wrappers run the checks first and then defer to the model
 * of the code, so that each can be set against what the code does.
 */
module Validated {
  import opened Wrappers
  import opened SchemaFormat
  import opened SampleGenerator

  /** The characters Python's `str.isspace` accepts, which `strip()` removes. */
  predicate IsSpace(c: char)
  {
    || c == ' '
    || '\t' <= c <= '\r'
    || '\U{1C}' <= c <= '\U{1F}'
    || c == '\U{85}' || c == '\U{A0}' || c == '\U{1680}'
    || '\U{2000}' <= c <= '\U{200A}'
    || c == '\U{2028}' || c == '\U{2029}' || c == '\U{202F}' || c == '\U{205F}' || c == '\U{3000}'
  }

  /** `not s.strip()`: the text is empty or all whitespace. */
  predicate IsBlank(s: string)
  {
    forall i :: 0 <= i < |s| ==> IsSpace(s[i])
  }

  /** The formatter's failures as the tests name them. */
  datatype FieldError =
    | NoFieldsProvided
    | InvalidFieldStructure
    | EmptyFieldName
    | DuplicateFieldName(name: string)

  /** One row under the tests' checks: both keys, then a non-blank name, then a new name. */
  function CheckRow(s: Schema, row: FieldRow): (r: Result<Schema, FieldError>)
    requires Valid(s)
    ensures r.Ok? ==> Valid(r.value) && Insert(s, row) == Ok(r.value)
    ensures r.Ok? <==>
              row.col1.Some? && row.col2.Some? && !IsBlank(row.col1.value) && Insert(s, row).Ok?
    ensures row.col1.None? || row.col2.None? ==> r == Err(InvalidFieldStructure)
    ensures row.col1.Some? && row.col2.Some? && IsBlank(row.col1.value) ==> r == Err(EmptyFieldName)
    ensures row.col1.Some? && row.col2.Some? && !IsBlank(row.col1.value) && row.col1.value in s.descriptions ==>
              r == Err(DuplicateFieldName(row.col1.value))
  {
    if row.col1.None? || row.col2.None? then Err(InvalidFieldStructure)
    else if IsBlank(row.col1.value) then Err(EmptyFieldName)
    else
      match Insert(s, row)
      case Ok(s') => Ok(s')
      case Err(_) => Err(DuplicateFieldName(row.col1.value))
  }

  /** The fold of `CheckRow` in input order, stopping at the first error. */
  function CheckRows(rows: seq<FieldRow>): (r: Result<Schema, FieldError>)
    ensures r.Ok? ==> Valid(r.value)
    decreases |rows|
  {
    if rows == [] then Ok(Empty)
    else
      match CheckRows(rows[..|rows| - 1])
      case Err(e) => Err(e)
      case Ok(s) => CheckRow(s, rows[|rows| - 1])
  }

  /** `format_user_input` with the tests' checks. */
  function ValidatedFormat(rows: seq<FieldRow>): Result<string, FieldError>
  {
    if rows == [] then Err(NoFieldsProvided)
    else
      match CheckRows(rows)
      case Ok(s) => Ok(Serialize(s))
      case Err(e) => Err(e)
  }

  /** No row's name is blank. */
  predicate NoBlankNames(rows: seq<FieldRow>)
  {
    forall i :: 0 <= i < |rows| ==> rows[i].col1.Some? ==> !IsBlank(rows[i].col1.value)
  }

  /** The checked fold passes exactly the rows the code passes that also have non-blank names, with the same result. */
  lemma {:induction false} CheckRowsAgreesWithBuild(rows: seq<FieldRow>)
    ensures CheckRows(rows).Ok? <==> Build(rows).Ok? && NoBlankNames(rows)
    ensures CheckRows(rows).Ok? ==> Build(rows) == Ok(CheckRows(rows).value)
    decreases |rows|
  {
    if rows != [] {
      var init := rows[..|rows| - 1];
      var last := rows[|rows| - 1];
      CheckRowsAgreesWithBuild(init);
      NoBlankNamesSplit(rows);
      match CheckRows(init)
      case Ok(s) =>
        assert Build(init) == Ok(s);
        assert CheckRows(rows) == CheckRow(s, last);
        assert Build(rows) == Insert(s, last);
      case Err(e) =>
        assert CheckRows(rows) == Err(e);
    }
  }

  /** A table has no blank name exactly when its first rows have none and its last row's name is not blank. */
  lemma NoBlankNamesSplit(rows: seq<FieldRow>)
    requires rows != []
    ensures NoBlankNames(rows) <==>
              && NoBlankNames(rows[..|rows| - 1])
              && (rows[|rows| - 1].col1.Some? ==> !IsBlank(rows[|rows| - 1].col1.value))
  {
    var init := rows[..|rows| - 1];
    assert forall i :: 0 <= i < |init| ==> init[i] == rows[i];
  }

  /**
   * The checked formatter succeeds exactly on a non-empty table whose rows all
   * have both keys, non-blank names and pairwise distinct names; when it
   * succeeds it returns what the code returns.
   */
  lemma ValidatedFormatSucceedsIff(rows: seq<FieldRow>)
    ensures ValidatedFormat(rows).Ok? <==>
              |rows| > 0 && WellFormed(rows) && NoBlankNames(rows) && DistinctNames(rows)
    ensures ValidatedFormat(rows).Ok? ==> Format(rows) == Ok(ValidatedFormat(rows).value)
  {
    CheckRowsAgreesWithBuild(rows);
    BuildSucceedsIff(rows);
  }

  /** Once a prefix has failed the checks, the rest of the rows is never looked at. */
  lemma {:induction false} CheckRowsStopsAtFirstFailure(rows: seq<FieldRow>, j: nat)
    requires j <= |rows| && CheckRows(rows[..j]).Err?
    ensures CheckRows(rows) == CheckRows(rows[..j])
    decreases |rows|
  {
    if j < |rows| {
      var init := rows[..|rows| - 1];
      assert init[..j] == rows[..j];
      CheckRowsStopsAtFirstFailure(init, j);
    } else {
      assert rows[..j] == rows;
    }
  }

  /** A repeated name fails with an error naming it; the first occurrence is the one kept. */
  lemma DuplicateNamed(rows: seq<FieldRow>, i: nat, j: nat)
    requires i < j < |rows|
    requires WellFormed(rows[..j]) && NoBlankNames(rows[..j]) && DistinctNames(rows[..j])
    requires rows[j].col1.Some? && rows[j].col2.Some? && !IsBlank(rows[j].col1.value)
    requires rows[j].col1 == rows[i].col1
    ensures ValidatedFormat(rows) == Err(DuplicateFieldName(rows[j].col1.value))
  {
    var prefix := rows[..j];
    BuildSucceedsIff(prefix);
    CheckRowsAgreesWithBuild(prefix);
    BuildContents(prefix);
    var s := CheckRows(prefix).value;
    assert s.names[i] == rows[j].col1.value;
    assert rows[j].col1.value in s.descriptions;
    DuplicateStep(rows, j, s);
    CheckRowsStopsAtFirstFailure(rows, j + 1);
  }

  lemma DuplicateStep(rows: seq<FieldRow>, j: nat, s: Schema)
    requires j < |rows| && CheckRows(rows[..j]) == Ok(s)
    requires rows[j].col1.Some? && rows[j].col2.Some? && !IsBlank(rows[j].col1.value)
    requires rows[j].col1.value in s.descriptions
    ensures CheckRows(rows[..j + 1]) == Err(DuplicateFieldName(rows[j].col1.value))
  {
    assert rows[..j + 1][..j] == rows[..j];
    assert rows[..j + 1][j] == rows[j];
  }

  /** The code returns the text of an empty dictionary where the tests expect "No fields provided". */
  lemma EmptyInputDiverges()
    ensures Format([]) == Ok("{}")
    ensures ValidatedFormat([]) == Err(NoFieldsProvided)
  {
    EmptyInputAccepted();
  }

  /** The code accepts a blank name where the tests expect "Field name cannot be empty". */
  lemma BlankNameDiverges(name: string, description: string)
    requires IsBlank(name)
    ensures Format([FieldRow(Some(name), Some(description))]).Ok?
    ensures ValidatedFormat([FieldRow(Some(name), Some(description))]) == Err(EmptyFieldName)
  {
    var rows := [FieldRow(Some(name), Some(description))];
    assert rows[..|rows| - 1] == [];
    assert Build(rows) == Insert(Empty, rows[0]);
    assert CheckRows(rows) == CheckRow(Empty, rows[0]);
  }

  /** The code raises `KeyError('col2')` where the tests expect "Invalid field structure". */
  lemma MissingDescriptionDiverges(name: string)
    ensures Format([FieldRow(Some(name), None)]) == Err(MissingKey("col2"))
    ensures ValidatedFormat([FieldRow(Some(name), None)]) == Err(InvalidFieldStructure)
  {
    var rows := [FieldRow(Some(name), None)];
    assert rows[..|rows| - 1] == [];
    assert Build(rows) == Insert(Empty, rows[0]);
    assert CheckRows(rows) == CheckRow(Empty, rows[0]);
  }

  /** The generator's failures as the tests name them, plus `GenerationFailed` for a failed model call. */
  datatype GenerationError =
    | MissingCredential
    | InvalidRecordCount
    | EmptySchema
    | GenerationFailed(cause: string)

  /** The checks made before any call, in order; the first that fails decides. */
  function CheckRequest(env: map<string, string>, numRecords: int, inputUserSchema: string): (r: Option<GenerationError>)
    ensures r.None? <==> ApiKeyVariable in env && 1 <= numRecords <= 100 && !IsBlank(inputUserSchema)
    ensures r == Some(MissingCredential) <==> ApiKeyVariable !in env
    ensures r == Some(InvalidRecordCount) <==> ApiKeyVariable in env && !(1 <= numRecords <= 100)
    ensures r == Some(EmptySchema) <==> ApiKeyVariable in env && 1 <= numRecords <= 100 && IsBlank(inputUserSchema)
    ensures r.Some? ==> !r.value.GenerationFailed?
  {
    if ApiKeyVariable !in env then Some(MissingCredential)
    else if numRecords < 1 || numRecords > 100 then Some(InvalidRecordCount)
    else if IsBlank(inputUserSchema) then Some(EmptySchema)
    else None
  }

  /** A failure of the model call, reported as `GenerationFailed` with the client's message. */
  function WrapFailure(response: Result<string, string>): (r: Result<string, GenerationError>)
    ensures r.Ok? <==> response.Ok?
    ensures r.Ok? ==> r.value == response.value
    ensures r.Err? ==> r.error == GenerationFailed(response.error)
  {
    match response
    case Ok(content) => Ok(content)
    case Err(cause) => Err(GenerationFailed(cause))
  }

  /**
   * `generate_data_sample` with the tests' checks: an invalid request fails
   * before the model is reached; a valid one reaches it exactly once.
   */
  method GenerateValidated(env: map<string, string>, numRecords: int, inputUserSchema: string, llm: ChatModel)
    returns (r: Result<string, GenerationError>)
    modifies llm
    ensures CheckRequest(env, numRecords, inputUserSchema).Some? ==>
              && r == Err(CheckRequest(env, numRecords, inputUserSchema).value)
              && llm.received == old(llm.received)
    ensures CheckRequest(env, numRecords, inputUserSchema).None? ==>
              && llm.received == old(llm.received) + [RequestFor(env, numRecords, inputUserSchema)]
              && RequestFor(env, numRecords, inputUserSchema).apiKey == Some(env[ApiKeyVariable])
              && r == WrapFailure(llm.answer(RequestFor(env, numRecords, inputUserSchema)))
    ensures CheckRequest(env, numRecords, inputUserSchema).None? ==>
              var answer := llm.answer(RequestFor(env, numRecords, inputUserSchema));
              && (answer.Ok? ==> r == Ok(answer.value))
              && (answer.Err? ==> r == Err(GenerationFailed(answer.error)))
  {
    var problem := CheckRequest(env, numRecords, inputUserSchema);
    if problem.Some? {
      return Err(problem.value);
    }
    var content := GenerateDataSample(env, numRecords, inputUserSchema, llm);
    r := WrapFailure(content);
  }
}
