/**
 * `format_user_input`: the rows of the field table, each a dictionary
 * `{'col1': name, 'col2': description}`, are folded in order into a
 * name-to-description dictionary; a name that is already a key is refused.
 * The dictionary is then rendered as text for the prompt.
 */
module SchemaFormat {
  import opened Wrappers
  import opened Strings

  /** One row of the field table; a key the dictionary lacks is `None`. */
  datatype FieldRow = FieldRow(col1: Option<string>, col2: Option<string>)

  /** A field definition whose name and description are both present. */
  datatype Field = Field(name: string, description: string)

  /** What `format_user_input` raises. */
  datatype FormatError =
    | MissingKey(key: string)   // KeyError from `field['col1']` or `field['col2']`
    | DuplicateField            // ValueError on a name already accepted
  {
    function Message(): string
    {
      match this
      case MissingKey(key) => "'" + key + "'"
      case DuplicateField => "ERROR: Cannot define the same field twice"
    }
  }

  /** The dictionary being built: its keys in insertion order and the mapping itself. */
  datatype Schema = Schema(names: seq<string>, descriptions: map<string, string>)

  /** The keys listed are exactly the keys of the mapping, each once. */
  ghost predicate Valid(s: Schema)
  {
    && (forall i, j :: 0 <= i < j < |s.names| ==> s.names[i] != s.names[j])
    && (forall i :: 0 <= i < |s.names| ==> s.names[i] in s.descriptions)
    && (forall k :: k in s.descriptions ==> k in s.names)
    && |s.descriptions| == |s.names|
  }

  const Empty := Schema([], map[])

  /**
   * One turn of the loop: the name is looked up first (a missing `col1` raises
   * there), a name already present is refused, and only then is `col2` read and
   * stored under the new name.
   */
  function Insert(s: Schema, row: FieldRow): (r: Result<Schema, FormatError>)
    requires Valid(s)
    ensures r.Ok? ==> Valid(r.value)
  {
    match row.col1
    case None => Err(MissingKey("col1"))
    case Some(name) =>
      if name in s.descriptions then Err(DuplicateField)
      else
        match row.col2
        case None => Err(MissingKey("col2"))
        case Some(description) =>
          Ok(Schema(s.names + [name], s.descriptions[name := description]))
  }

  /** A name already accepted is refused; an accepted row never overwrites an earlier entry. */
  lemma InsertKeepsFirstOccurrence(s: Schema, row: FieldRow)
    requires Valid(s)
    ensures row.col1.Some? && row.col1.value in s.descriptions ==> Insert(s, row) == Err(DuplicateField)
    ensures Insert(s, row).Ok? ==>
              forall k :: k in s.descriptions ==>
                k in Insert(s, row).value.descriptions && Insert(s, row).value.descriptions[k] == s.descriptions[k]
  {
  }

  /** The fold of `Insert` over the rows in input order, stopping at the first error. */
  function Build(rows: seq<FieldRow>): (r: Result<Schema, FormatError>)
    ensures r.Ok? ==> Valid(r.value) && |r.value.names| == |rows|
    decreases |rows|
  {
    if rows == [] then Ok(Empty)
    else
      match Build(rows[..|rows| - 1])
      case Err(e) => Err(e)
      case Ok(s) => Insert(s, rows[|rows| - 1])
  }

  /** The accepted fields in key order. */
  function FieldsOf(s: Schema): seq<Field>
    requires Valid(s)
  {
    seq(|s.names|, i requires 0 <= i < |s.names| => Field(s.names[i], s.descriptions[s.names[i]]))
  }

  /** One `'name': 'description'` pair of the rendered dictionary, followed by `rest`. */
  function EntryThen(f: Field, rest: string): string
  {
    "'" + (f.name + ("'" + (": '" + (f.description + ("'" + rest)))))
  }

  /** The pairs, separated by `, `. */
  function RenderFields(fs: seq<Field>): string
  {
    if |fs| == 0 then ""
    else EntryThen(fs[0], if |fs| == 1 then "" else ", " + RenderFields(fs[1..]))
  }

  /** `str(schema)`: the pairs in insertion order between braces, without escaping. */
  function Serialize(s: Schema): string
    requires Valid(s)
  {
    "{" + RenderFields(FieldsOf(s)) + "}"
  }

  /** What `format_user_input` returns or raises. */
  function Format(rows: seq<FieldRow>): Result<string, FormatError>
  {
    match Build(rows)
    case Ok(s) => Ok(Serialize(s))
    case Err(e) => Err(e)
  }

  /** `format_user_input`, with the dictionary and its key order kept by the loop. */
  method FormatUserInput(input: seq<FieldRow>) returns (r: Result<string, FormatError>)
    ensures r == Format(input)
    ensures r.Ok? <==> WellFormed(input) && DistinctNames(input)
  {
    var names: seq<string> := [];
    var schema: map<string, string> := map[];
    for i := 0 to |input|
      invariant Build(input[..i]) == Ok(Schema(names, schema))
    {
      var field := input[i];
      BuildNext(input, i, Schema(names, schema));
      if field.col1.None? {
        FailureAt(input, i, MissingKey("col1"));
        return Err(MissingKey("col1"));
      }
      var name := field.col1.value;
      if name in schema {
        FailureAt(input, i, DuplicateField);
        return Err(DuplicateField);
      }
      if field.col2.None? {
        FailureAt(input, i, MissingKey("col2"));
        return Err(MissingKey("col2"));
      }
      schema := schema[name := field.col2.value];
      names := names + [name];
    }
    SuccessAll(input, Schema(names, schema));
    r := Ok(Serialize(Schema(names, schema)));
  }

  /** One more row: the fold of the longer prefix is one `Insert` on the shorter one's result. */
  lemma BuildNext(rows: seq<FieldRow>, i: nat, s: Schema)
    requires i < |rows| && Build(rows[..i]) == Ok(s)
    ensures Valid(s) && Build(rows[..i + 1]) == Insert(s, rows[i])
  {
    assert rows[..i + 1][..i] == rows[..i];
  }

  /** A failure on row `i` after a clean prefix is the result of the whole input. */
  lemma FailureAt(rows: seq<FieldRow>, i: nat, e: FormatError)
    requires i < |rows| && Build(rows[..i + 1]) == Err(e)
    ensures Format(rows) == Err(e)
    ensures !(WellFormed(rows) && DistinctNames(rows))
  {
    BuildStopsAtFirstFailure(rows, i + 1);
    BuildSucceedsIff(rows);
  }

  /** A fold that got through every row is the result of the whole input. */
  lemma SuccessAll(rows: seq<FieldRow>, s: Schema)
    requires Build(rows[..|rows|]) == Ok(s)
    ensures Valid(s) && Format(rows) == Ok(Serialize(s))
    ensures WellFormed(rows) && DistinctNames(rows)
  {
    assert rows[..|rows|] == rows;
    BuildSucceedsIff(rows);
  }

  /** Every row has both keys. */
  predicate WellFormed(rows: seq<FieldRow>)
  {
    forall i :: 0 <= i < |rows| ==> rows[i].col1.Some? && rows[i].col2.Some?
  }

  /** No two rows carry the same `col1`, compared exactly as given (no trimming). */
  predicate DistinctNames(rows: seq<FieldRow>)
  {
    forall i, j :: 0 <= i < j < |rows| ==> rows[i].col1 != rows[j].col1
  }

  /** The typed fields of well-formed rows. */
  function FieldsOfRows(rows: seq<FieldRow>): seq<Field>
    requires WellFormed(rows)
  {
    seq(|rows|, i requires 0 <= i < |rows| => Field(rows[i].col1.value, rows[i].col2.value))
  }

  /** Once a prefix has failed, the rest of the rows is never looked at. */
  lemma {:induction false} BuildStopsAtFirstFailure(rows: seq<FieldRow>, j: nat)
    requires j <= |rows| && Build(rows[..j]).Err?
    ensures Build(rows) == Build(rows[..j])
    decreases |rows|
  {
    if j < |rows| {
      var init := rows[..|rows| - 1];
      assert init[..j] == rows[..j];
      BuildStopsAtFirstFailure(init, j);
    } else {
      assert rows[..j] == rows;
    }
  }

  /** The rows' names in input order and each name's own description. */
  ghost predicate Lists(s: Schema, rows: seq<FieldRow>)
  {
    && WellFormed(rows)
    && |s.names| == |rows|
    && forall i :: 0 <= i < |rows| ==>
         && s.names[i] == rows[i].col1.value
         && s.names[i] in s.descriptions
         && s.descriptions[s.names[i]] == rows[i].col2.value
  }

  /**
   * On success the keys are the rows' names in input order and each maps to its
   * own row's description, so no row is dropped and none is overwritten.
   */
  lemma {:induction false} BuildContents(rows: seq<FieldRow>)
    requires Build(rows).Ok?
    ensures Lists(Build(rows).value, rows)
    decreases |rows|
  {
    if rows != [] {
      var init, last := rows[..|rows| - 1], rows[|rows| - 1];
      BuildContents(init);
      var s := Build(init).value;
      assert Build(rows) == Insert(s, last);
      ListsAppend(s, rows);
    }
  }

  /** Appending a row with a new name to the keys and the mapping extends the listing by that row. */
  lemma ListsAppend(s: Schema, rows: seq<FieldRow>)
    requires rows != [] && Lists(s, rows[..|rows| - 1])
    requires rows[|rows| - 1].col1.Some? && rows[|rows| - 1].col2.Some?
    requires rows[|rows| - 1].col1.value !in s.descriptions
    ensures var name := rows[|rows| - 1].col1.value;
            Lists(Schema(s.names + [name], s.descriptions[name := rows[|rows| - 1].col2.value]), rows)
  {
    var init, last := rows[..|rows| - 1], rows[|rows| - 1];
    var s' := Schema(s.names + [last.col1.value], s.descriptions[last.col1.value := last.col2.value]);
    forall i | 0 <= i < |init|
      ensures rows[i].col1.Some? && rows[i].col2.Some?
      ensures s'.names[i] == rows[i].col1.value
      ensures s'.names[i] in s'.descriptions
      ensures s'.descriptions[s'.names[i]] == rows[i].col2.value
    {
      assert rows[i] == init[i];
      assert s'.names[i] == s.names[i];
    }
  }

  /** The fold succeeds exactly when every row has both keys and the names are pairwise distinct. */
  lemma BuildSucceedsIff(rows: seq<FieldRow>)
    ensures Build(rows).Ok? <==> WellFormed(rows) && DistinctNames(rows)
  {
    if Build(rows).Ok? {
      BuildContents(rows);
      var s := Build(rows).value;
      forall i, j | 0 <= i < j < |rows|
        ensures rows[i].col1 != rows[j].col1
      {
        assert s.names[i] != s.names[j];
      }
    } else if WellFormed(rows) && DistinctNames(rows) {
      BuildSucceedsWhenDistinct(rows);
    }
  }

  lemma {:induction false} BuildSucceedsWhenDistinct(rows: seq<FieldRow>)
    requires WellFormed(rows) && DistinctNames(rows)
    ensures Build(rows).Ok?
    decreases |rows|
  {
    if rows != [] {
      var init := rows[..|rows| - 1];
      var last := rows[|rows| - 1];
      assert forall i :: 0 <= i < |init| ==> init[i] == rows[i];
      BuildSucceedsWhenDistinct(init);
      BuildContents(init);
      var s := Build(init).value;
      var name := last.col1.value;
      forall i | 0 <= i < |s.names|
        ensures s.names[i] != name
      {
        assert rows[i].col1 != last.col1;
      }
      assert name !in s.descriptions;
    }
  }

  /** The second row with a name already accepted fails the whole input; the first row keeps its entry. */
  lemma DuplicateReported(rows: seq<FieldRow>, i: nat, j: nat)
    requires i < j < |rows|
    requires rows[i].col1.Some? && rows[j].col1 == rows[i].col1
    requires WellFormed(rows[..j]) && DistinctNames(rows[..j])
    ensures Build(rows) == Err(DuplicateField)
  {
    var prefix := rows[..j];
    BuildSucceedsIff(prefix);
    BuildContents(prefix);
    var s := Build(prefix).value;
    assert s.names[i] == rows[i].col1.value;
    BuildNext(rows, j, s);
    BuildStopsAtFirstFailure(rows, j + 1);
  }

  /** A row without a name, or with a new name but no description, fails the input with the key's `KeyError`. */
  lemma MissingKeyReported(rows: seq<FieldRow>, j: nat)
    requires j < |rows| && Build(rows[..j]).Ok?
    requires rows[j].col1.None? || (rows[j].col2.None? && rows[j].col1.value !in Build(rows[..j]).value.descriptions)
    ensures Build(rows) == Err(MissingKey(if rows[j].col1.None? then "col1" else "col2"))
  {
    assert rows[..j + 1][..j] == rows[..j];
    BuildStopsAtFirstFailure(rows, j + 1);
  }

  /** Names are compared untrimmed: `"age"` and `"age "` are two different fields. */
  lemma UntrimmedNamesAreDistinct(name: string, d1: string, d2: string)
    ensures Build([FieldRow(Some(name), Some(d1)), FieldRow(Some(name + " "), Some(d2))]).Ok?
  {
    var rows := [FieldRow(Some(name), Some(d1)), FieldRow(Some(name + " "), Some(d2))];
    assert |name| != |name + " "|;
    BuildSucceedsIff(rows);
  }

  /** The code raises nothing on an empty table: it returns the text of an empty dictionary. */
  lemma EmptyInputAccepted()
    ensures Format([]) == Ok("{}")
  {
    assert FieldsOf(Empty) == [];
    assert RenderFields([]) == "";
    assert Serialize(Empty) == "{" + "" + "}";
    assert "{" + "" + "}" == "{}";
  }

  /** A successful result lists every submitted row, in input order. */
  lemma FormatFieldsInOrder(rows: seq<FieldRow>)
    requires Build(rows).Ok?
    ensures WellFormed(rows)
    ensures FieldsOf(Build(rows).value) == FieldsOfRows(rows)
  {
    BuildContents(rows);
  }

  /** A row whose name and description hold no single quote, so the rendering needs no escaping. */
  predicate QuoteFree(f: Field)
  {
    '\'' !in f.name && '\'' !in f.description
  }

  predicate RowsQuoteFree(rows: seq<FieldRow>)
  {
    forall i :: 0 <= i < |rows| ==>
      (rows[i].col1.Some? ==> '\'' !in rows[i].col1.value) &&
      (rows[i].col2.Some? ==> '\'' !in rows[i].col2.value)
  }

  /** Splits at the first single quote: the text before it and the text after it. */
  function SplitAtQuote(t: string): (r: Option<(string, string)>)
    ensures r.Some? <==> '\'' in t
    ensures r.Some? ==> '\'' !in r.value.0 && t == r.value.0 + "'" + r.value.1
    decreases |t|
  {
    if t == [] then None
    else if t[0] == '\'' then Some(([], t[1..]))
    else
      match SplitAtQuote(t[1..])
      case None => None
      case Some((before, after)) => Some(([t[0]] + before, after))
  }

  lemma {:induction false} SplitAtFirstQuote(a: string, b: string)
    requires '\'' !in a
    ensures SplitAtQuote(a + ("'" + b)) == Some((a, b))
    decreases |a|
  {
    var t := a + ("'" + b);
    if a == [] {
      assert t[1..] == b;
    } else {
      assert t[0] == a[0];
      assert t[1..] == a[1..] + ("'" + b);
      SplitAtFirstQuote(a[1..], b);
      assert [a[0]] + a[1..] == a;
    }
  }

  /** Reads back a non-empty list of `'name': 'description'` pairs separated by `, `. */
  function ParseFields(b: string): Option<seq<Field>>
    decreases |b|
  {
    if |b| == 0 || b[0] != '\'' then None
    else
      match SplitAtQuote(b[1..])
      case None => None
      case Some((name, afterName)) =>
        if |afterName| < 3 || afterName[..3] != ": '" then None
        else
          match SplitAtQuote(afterName[3..])
          case None => None
          case Some((description, rest)) =>
            if rest == [] then Some([Field(name, description)])
            else if |rest| >= 2 && rest[..2] == ", " then
              match ParseFields(rest[2..])
              case None => None
              case Some(more) => Some([Field(name, description)] + more)
            else None
  }

  /** Reads back the text of a dictionary as its fields in order. */
  function ParseSchemaText(text: string): Option<seq<Field>>
  {
    if |text| >= 2 && text[0] == '{' && text[|text| - 1] == '}' then
      var body := text[1..|text| - 1];
      if body == [] then Some([]) else ParseFields(body)
    else None
  }

  /** Reading one leading entry: the parser takes the entry whole and goes on after it. */
  lemma ParseEntry(f: Field, tail: string)
    requires QuoteFree(f)
    ensures ParseFields(EntryThen(f, tail)) ==
              if tail == [] then Some([f])
              else if |tail| >= 2 && tail[..2] == ", " then
                match ParseFields(tail[2..])
                case None => None
                case Some(more) => Some([f] + more)
              else None
  {
    var afterName := ": '" + (f.description + ("'" + tail));
    assert EntryThen(f, tail)[1..] == f.name + ("'" + afterName);
    SplitAtFirstQuote(f.name, afterName);
    assert afterName[..3] == ": '";
    assert afterName[3..] == f.description + ("'" + tail);
    SplitAtFirstQuote(f.description, tail);
  }

  lemma {:induction false} RenderFieldsParse(fs: seq<Field>)
    requires |fs| > 0 && forall i :: 0 <= i < |fs| ==> QuoteFree(fs[i])
    ensures ParseFields(RenderFields(fs)) == Some(fs)
    decreases |fs|
  {
    if |fs| == 1 {
      ParseEntry(fs[0], []);
      assert [fs[0]] == fs;
    } else {
      var rest := RenderFields(fs[1..]);
      assert RenderFields(fs) == EntryThen(fs[0], ", " + rest);
      RenderFieldsParse(fs[1..]);
      ParseEntryThenMore(fs[0], rest, fs[1..]);
      assert [fs[0]] + fs[1..] == fs;
    }
  }

  /** An entry followed by `, ` and a list that reads back reads back as that entry and the list. */
  lemma ParseEntryThenMore(f: Field, rest: string, more: seq<Field>)
    requires QuoteFree(f) && ParseFields(rest) == Some(more)
    ensures ParseFields(EntryThen(f, ", " + rest)) == Some([f] + more)
  {
    var tail := ", " + rest;
    ParseEntry(f, tail);
    assert tail[..2] == ", " && tail[2..] == rest;
  }

  /** The text of a dictionary reads back as exactly its fields, in insertion order. */
  lemma SerializeParse(s: Schema)
    requires Valid(s) && forall i :: 0 <= i < |FieldsOf(s)| ==> QuoteFree(FieldsOf(s)[i])
    ensures ParseSchemaText(Serialize(s)) == Some(FieldsOf(s))
  {
    var fs := FieldsOf(s);
    var text := Serialize(s);
    assert text[1..|text| - 1] == RenderFields(fs);
    if |fs| > 0 {
      RenderFieldsParse(fs);
    }
  }

  /**
   * The returned text loses nothing: read back, it gives every submitted row's
   * name and description, in input order (for text needing no quote escaping).
   */
  lemma FormatRoundTrip(rows: seq<FieldRow>)
    requires Format(rows).Ok? && RowsQuoteFree(rows)
    ensures WellFormed(rows)
    ensures ParseSchemaText(Format(rows).value) == Some(FieldsOfRows(rows))
  {
    FormatFieldsInOrder(rows);
    var s := Build(rows).value;
    SerializeParse(s);
  }

  /** An entry holds its name, its description and what follows it. */
  lemma EntryThenParts(f: Field, rest: string)
    ensures Occurs(f.name, EntryThen(f, rest))
    ensures Occurs(f.description, EntryThen(f, rest))
    ensures Occurs(rest, EntryThen(f, rest))
  {
    var afterDescription := "'" + rest;
    var afterName := "'" + (": '" + (f.description + afterDescription));
    OccursSelf(f.name);
    OccursBefore(f.name, f.name, afterName);
    OccursAfter(f.name, "'", f.name + afterName);
    OccursSelf(f.description);
    OccursBefore(f.description, f.description, afterDescription);
    OccursAfter(f.description, ": '", f.description + afterDescription);
    OccursAfter(f.description, "'", ": '" + (f.description + afterDescription));
    OccursAfter(f.description, f.name, afterName);
    OccursAfter(f.description, "'", f.name + afterName);
    OccursSelf(rest);
    OccursAfter(rest, "'", rest);
    OccursAfter(rest, f.description, afterDescription);
    OccursAfter(rest, ": '", f.description + afterDescription);
    OccursAfter(rest, "'", ": '" + (f.description + afterDescription));
    OccursAfter(rest, f.name, afterName);
    OccursAfter(rest, "'", f.name + afterName);
  }

  /** The rendered pairs hold every field's name and description. */
  lemma {:induction false} FieldOccurs(fs: seq<Field>, i: nat)
    requires i < |fs|
    ensures Occurs(fs[i].name, RenderFields(fs)) && Occurs(fs[i].description, RenderFields(fs))
    decreases i
  {
    var rest := if |fs| == 1 then "" else ", " + RenderFields(fs[1..]);
    EntryThenParts(fs[0], rest);
    if i > 0 {
      FieldOccurs(fs[1..], i - 1);
      OccursAfter(fs[i].name, ", ", RenderFields(fs[1..]));
      OccursAfter(fs[i].description, ", ", RenderFields(fs[1..]));
      OccursTrans(fs[i].name, rest, RenderFields(fs));
      OccursTrans(fs[i].description, rest, RenderFields(fs));
    }
  }

  /** The returned text contains every submitted name and every submitted description. */
  lemma FormatContainsEveryField(rows: seq<FieldRow>, i: nat)
    requires Format(rows).Ok? && i < |rows|
    ensures rows[i].col1.Some? && rows[i].col2.Some?
    ensures Occurs(rows[i].col1.value, Format(rows).value)
    ensures Occurs(rows[i].col2.value, Format(rows).value)
  {
    FormatFieldsInOrder(rows);
    var fs := FieldsOf(Build(rows).value);
    assert fs[i] == Field(rows[i].col1.value, rows[i].col2.value);
    FieldOccurs(fs, i);
    OccursAfter(fs[i].name, "{", RenderFields(fs));
    OccursBefore(fs[i].name, "{" + RenderFields(fs), "}");
    OccursAfter(fs[i].description, "{", RenderFields(fs));
    OccursBefore(fs[i].description, "{" + RenderFields(fs), "}");
  }
}
