# data-generator core, modelled in Dafny

The repository is a small Streamlit app. A user fills in a table of fields, each a name
(`col1`) and a free-text description of its values (`col2`), then chooses a record count.
A language model is asked to produce that many sample records as newline-delimited
JSON. This project models the only part with logic in it, `src/inference/generator.py`:

- **`format_user_input`** folds the table's rows, in input order, into a Python
  dictionary from name to description. A name that is already a key raises
  `ValueError('ERROR: Cannot define the same field twice')`. The finished dictionary is
  returned as its text (`str(schema)`).
- **`generate_data_sample`** reads `GEMINI_API_KEY` from the environment. It builds one
  fixed prompt around `str(num_records)` and the schema text, calls the chat model once,
  and returns `response.content` unchanged.

Files:

- `wrappers.dfy`: `Option` and `Result`.
- `strings.dfy`: substring occurrence (`Occurs`, Python's `x in s`) and its lemmas.
- `decimal.dfy`: `str(n)` for an `int` (`Decimal.Render`), a reader for it, and the round trip.
- `schema_format.dfy`: module `SchemaFormat`, covering rows and the dictionary being built.
  `FormatUserInput` is the loop over a `map<string, string>` plus a `seq` of keys in
  insertion order. It is proved equal to the functional specification `Format`, a left fold
  (`Build`) of one loop turn (`Insert`) followed by `Serialize`. The properties are lemmas
  about `Build` and `Serialize`.
- `sample_generator.dfy`: module `SampleGenerator`, with the prompt template exactly as
  written (including its indentation) and a reader for it. The external model is a class
  `ChatModel`: `answer` is what the service does with a request, and `received` logs every
  request sent. `GenerateDataSample` is proved to send exactly one request and to return
  the answer untouched.
- `validated.dfy`: module `Validated`. These are separately named wrappers carrying the
  checks that `tests/test_generator.py` asserts but the code does not make. Lemmas set each
  one against the model of the code.

A table row is `FieldRow(col1: Option<string>, col2: Option<string>)`, where `None` is a
key missing from the row's dictionary. The code reads the keys in this order:

1. `field['col1'] in schema` raises `KeyError('col1')` if `col1` is missing, and otherwise
   checks for a duplicate.
2. `schema[...] = field['col2']` reads `col2` only after that check.

So `Insert` raises `MissingKey("col1")`, `DuplicateField` and `MissingKey("col2")`, in
that order.

## Model

| member | source | states |
|---|---|---|
| `SchemaFormat.FormatUserInput` | src/inference/generator.py:19-30 | The loop over the rows, building the map and its key order, returns exactly `Format(input)`. It succeeds exactly when every row has both keys and the `col1` names are pairwise distinct. |
| `SchemaFormat.Build` | src/inference/generator.py:22-28 | The fold of the loop body over the rows in input order. On success its result is a well-formed dictionary: keys listed once each, the key list and the map agree, and there is one entry per row. |
| `SchemaFormat.InsertKeepsFirstOccurrence` | src/inference/generator.py:25-28 | A name already a key is refused with `DuplicateField`. An accepted row keeps every earlier entry unchanged, so the first occurrence is never overwritten. |
| `SchemaFormat.BuildContents` | src/inference/generator.py:22-28 | On success every key position holds its row's own name in input order, and each name maps to its own row's description. The number of entries equals the number of rows, so no field is dropped. |
| `SchemaFormat.BuildSucceedsIff` | src/inference/generator.py:24-28 | The fold succeeds if and only if every row has both keys and the names are pairwise distinct. |
| `SchemaFormat.BuildSucceedsWhenDistinct` | src/inference/generator.py:24-28 | The "if" half: rows with both keys and distinct names always succeed. |
| `SchemaFormat.BuildStopsAtFirstFailure` | src/inference/generator.py:24-26 | Rows are processed in order. Once a prefix has failed, the whole input fails with that same error, so later rows are never looked at. |
| `SchemaFormat.DuplicateReported` | src/inference/generator.py:25-26 | After a clean prefix, a row repeating an earlier row's name makes the whole input fail with `DuplicateField`. It is the second occurrence that fails. |
| `SchemaFormat.MissingKeyReported` | src/inference/generator.py:25-28 | After a clean prefix, a row without `col1` fails with `KeyError('col1')`. A row with a new name but no `col2` fails with `KeyError('col2')`. |
| `SchemaFormat.UntrimmedNamesAreDistinct` | src/inference/generator.py:25 | Names are compared raw, so `name` and `name + " "` are both accepted as separate fields. |
| `SchemaFormat.EmptyInputAccepted` | src/inference/generator.py:22-30 | An empty table raises nothing and returns `"{}"`. |
| `SchemaFormat.FormatFieldsInOrder` | src/inference/generator.py:24-30 | On success the fields that are serialised are exactly the submitted rows, in input order. |
| `SchemaFormat.FormatContainsEveryField` | src/inference/generator.py:30 | On success the returned text (of the unescaped rendering) contains every submitted name and every submitted description. |
| `SchemaFormat.FormatRoundTrip` | src/inference/generator.py:30 | On success, reading the returned text back gives exactly the submitted (name, description) pairs in input order. This holds when no name or description contains a single quote. |
| `Decimal.RenderRoundTrip` | src/inference/generator.py:44 | `str(num_records)` reads back as the same integer, negative numbers included. |
| `Decimal.RenderInjective` | src/inference/generator.py:44 | Different record counts render as different text. |
| `SampleGenerator.PromptRoundTrip` | src/inference/generator.py:44-51 | The prompt holds the decimal count and the schema text verbatim, in their places in the fixed template. Reading the prompt back gives exactly the two inputs. |
| `SampleGenerator.PromptEmbedsInputs` | src/inference/generator.py:44-46 | The prompt contains `str(num_records)` and the schema text as substrings. |
| `SampleGenerator.RequestFor` | src/inference/generator.py:35-51 | The request sent carries the key as found (possibly `None`) and a prompt that reads back as the count and the schema. |
| `SampleGenerator.ChatModel.Invoke` | src/inference/generator.py:44 | One call logs exactly one request and returns the service's answer to it. |
| `SampleGenerator.GenerateDataSample` | src/inference/generator.py:32-53 | The model receives exactly one new request, built from the environment's key and the prompt. The result is the model's content, or the error the client raised, unchanged. |
| `Validated.CheckRow` | tests/test_generator.py:56-81 | The tests' per-row checks run in order. A missing key gives "Invalid field structure". Otherwise a blank name gives "Field name cannot be empty". Otherwise a name already present gives a duplicate error that names it. A row that passes is inserted exactly as the code inserts it. |
| `Validated.CheckRowsAgreesWithBuild` | tests/test_generator.py:56-72 | The checked fold succeeds exactly when the code's fold succeeds and no name is blank. It then builds the same dictionary. |
| `Validated.ValidatedFormatSucceedsIff` | tests/test_generator.py:40-81 | The checked formatter succeeds exactly on a non-empty table with both keys in every row and non-blank, pairwise distinct names. When it succeeds it returns what the code returns. |
| `Validated.DuplicateNamed` | tests/test_generator.py:46-54 | After a clean prefix, a repeated name fails with an error that names it. |
| `Validated.CheckRowsStopsAtFirstFailure` | tests/test_generator.py:46-54 | The checked fold also stops at the first failing row. |
| `Validated.EmptyInputDiverges` | tests/test_generator.py:40-44 | On an empty table the code returns `"{}"`, while the test expects "No fields provided". |
| `Validated.BlankNameDiverges` | tests/test_generator.py:56-72 | The code accepts a blank or whitespace-only name, while the tests expect "Field name cannot be empty". |
| `Validated.MissingDescriptionDiverges` | tests/test_generator.py:74-81 | A row without `col2` makes the code raise `KeyError('col2')`, while the test expects a `ValueError` "Invalid field structure". |
| `Validated.CheckRequest` | tests/test_generator.py:87-113 | A request passes exactly when the key is set, 1 <= count <= 100 and the schema is not blank. It is refused for the missing credential exactly when the key is unset. It is refused for the record count exactly when the key is set and the count is outside 1..100. It is refused for an empty schema exactly when the key and count pass and the schema is blank. |
| `Validated.GenerateValidated` | tests/test_generator.py:87-128 | An invalid request fails with its check's error before the model is reached, and no request is logged. A valid one reaches the model exactly once, with the key's value. Content comes back unchanged, and a client failure comes back as `GenerationFailed` carrying the client's message. |

## Where the code and its tests disagree

The code is what is modelled (`SchemaFormat`, `SampleGenerator`). The extra checks that
`tests/test_generator.py` asserts live only in `Validated`:

- Empty table: `format_user_input([])` returns `"{}"`, but the test expects
  `ValueError('No fields provided')`. See `Validated.EmptyInputDiverges`.
- Blank name: the code accepts `""` and `"   "`, but the tests expect "Field name cannot
  be empty". See `Validated.BlankNameDiverges`.
- Missing `col2`: the code raises `KeyError('col2')`, but the test expects `ValueError`
  "Invalid field structure". See `Validated.MissingDescriptionDiverges`.
- Duplicate name: the code's message does not name the field.
  `Validated.DuplicateFieldName` carries the name.
- The generator checks nothing. A missing `GEMINI_API_KEY` is passed on as `None`.
  A count outside 1..100 and an empty schema are sent to the model too. The tests expect
  three `ValueError`s before any call. `SampleGenerator.GenerateDataSample` has no
  precondition, and `Validated.GenerateValidated` makes the checks. The UI limits the
  count to 1..100 itself (src/app.py:34).
- The code has no `try`/`except` around `llm.invoke`, so a client failure propagates as
  raised. In the model, the code passes `Err(message)` through unchanged.
  `Validated.WrapFailure` wraps it as `GenerationFailed`.

Names are compared untrimmed while the blank check trims. So `"age"` and `"age "` are two
fields under both the code and `Validated` (`SchemaFormat.UntrimmedNamesAreDistinct`).

## Left out

- SchemaFormat.FormatRoundTrip: stated only for names and descriptions without a single
  quote. `Serialize` renders `{'k': 'v', ...}` without Python's `repr` escaping or its
  choice of quote character.
- `SchemaFormat.Serialize`: Python's `repr` of non-printable characters and backslashes is
  not modelled. Those characters are rendered as they are.
- Rows whose `col1`/`col2` values are not strings, and rows that are not dictionaries. The
  code does not check them, and the app always supplies strings.
- `num_records` is annotated `str` in the signature but is an `int` at every caller. It is
  modelled as `int`; a string argument would appear in the prompt as it is.
- The construction of `ChatGoogleGenerativeAI`: the model name, `temperature=0.7` (a float
  with no behaviour to verify) and `response_format` are not modelled. Any failure raised
  while building the client, or by the service, is folded into `ChatModel.answer` as
  `Err(message)`. Only `response.content` of the response object is modelled.
- SampleGenerator.GetEnv: a map lookup that stands in for `os.getenv`. The process
  environment itself is not modelled.
- SampleGenerator.ChatModel: the service is modelled as deterministic. `answer` is a fixed
  function of the request, so identical requests get identical content. The real service
  samples at `temperature=0.7`, and no proof relies on this determinism.
- SchemaFormat.FormatContainsEveryField: holds of the unescaped rendering. Python's
  `str(dict)` escapes backslashes and control characters, so, for example, a name with a
  backslash is not a substring of the real text.
- The environment is a `map<string, string>` parameter. The network call is the
  `ChatModel` object. Nothing is performed.
- `Validated.IsSpace` lists the characters of Python's `str.isspace` for a current Unicode
  database. Other Unicode versions may differ.
- `src/app.py` (Streamlit rendering, buttons, row editing in `st.session_state`) and
  `src/utils.py` (downloads-folder lookup, file writing, clock-based file names) are I/O
  around the core and are not part of this model.
