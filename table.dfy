/**
 * The table `process_model_objects` returns (lines 109-135): one entry per
 * catalogued type with its methods joined by ", ", expanded into one row per
 * comma-separated piece, then sorted by the type column. A table without any
 * row has no "Object Type (Class)" column, so the sort raises a KeyError
 * that the caller catches; that case is the `Failure` of `ProcessModelObjects`.
 */
module Table {
  import opened Wrappers
  import opened Seqs
  import opened Strings
  import opened Dicts
  import opened Sorting
  import opened Introspection

  const TypeColumn := "Object Type (Class)"
  const NoMethods := "No public methods"

  /** An element of `data`: a type and its "Available Methods" text. */
  datatype Entry = Entry(objectType: string, methods: string)

  /** An element of `processed_data`, and a row of the returned table. */
  datatype Row = Row(objectType: string, methodName: string)

  function RowType(r: Row): string {
    r.objectType
  }

  /** The "Available Methods" text of a method list (line 115). */
  function Joined(methods: seq<string>): string {
    if methods != [] then Join(methods, ", ") else NoMethods
  }

  /** `data` (lines 110-116): one entry per catalogued type, in the dictionary's key order. */
  function Entries(types: Dict<string, seq<string>>): (data: seq<Entry>)
    requires Valid(types)
    ensures |data| == |types.keys|
    ensures forall k :: 0 <= k < |data| ==> data[k].objectType == types.keys[k]
  {
    seq(|types.keys|, k requires 0 <= k < |types.keys| =>
      Entry(types.keys[k], Joined(types.entries[types.keys[k]])))
  }

  /** Rows of one type with the given texts, in order. */
  function RowsOf(objectType: string, items: seq<string>): (rows: seq<Row>)
    ensures |rows| == |items|
    ensures forall k {:trigger rows[k]} :: 0 <= k < |rows| ==> rows[k].objectType == objectType && rows[k].methodName == items[k]
  {
    seq(|items|, k requires 0 <= k < |items| => Row(objectType, items[k]))
  }

  /** `list_of_strings` (lines 122-123): the methods text split on "," with each piece stripped. */
  function Items(methods: string): (items: seq<string>)
    ensures |items| == Count(methods, ',') + 1
  {
    StripAll(Split(methods, ','))
  }

  /** The rows one entry expands to (lines 120-130); one more row than the text has commas. */
  function EntryRows(e: Entry): (rows: seq<Row>)
    ensures |rows| == Count(e.methods, ',') + 1
    ensures forall k :: 0 <= k < |rows| ==> rows[k].objectType == e.objectType
  {
    RowsOf(e.objectType, Items(e.methods))
  }

  /** `processed_data`: the rows of every entry, entry after entry; at least one per entry. */
  function Flatten(data: seq<Entry>): (rows: seq<Row>)
    ensures |rows| >= |data|
    decreases |data|
  {
    if data == [] then []
    else Flatten(data[..|data| - 1]) + EntryRows(data[|data| - 1])
  }

  /** The rows before sorting, for the catalogue `types`. */
  function TableRows(types: Dict<string, seq<string>>): seq<Row>
    requires Valid(types)
  {
    Flatten(Entries(types))
  }

  /** `df["Object Type (Class)"]`: the type column, row by row. */
  function RowTypes(rows: seq<Row>): (ts: seq<string>)
    ensures |ts| == |rows|
    ensures forall k :: 0 <= k < |rows| ==> ts[k] == rows[k].objectType
  {
    Map(rows, RowType)
  }

  function TypeIs(objectType: string): Row -> bool {
    (r: Row) => r.objectType == objectType
  }

  /** `df[df["Object Type (Class)"] == objectType]`: the rows of one type, in order. */
  function OfType(rows: seq<Row>, objectType: string): seq<Row> {
    Where(rows, TypeIs(objectType))
  }

  datatype ProcessError = MissingColumn(column: string)

  /** What `process_model_objects` returns: the sorted table and the sample handles. */
  datatype Catalogue = Catalogue(table: seq<Row>, sampleHandles: Dict<string, Handle>)

  /**
   * With no method name holding a comma, the rows of a type are its methods
   * stripped, in order, or the single "No public methods" row for an empty list.
   */
  lemma EntryRowsOfMethods(objectType: string, methods: seq<string>)
    requires forall k :: 0 <= k < |methods| ==> ',' !in methods[k]
    ensures EntryRows(Entry(objectType, Joined(methods)))
      == if methods == [] then [Row(objectType, NoMethods)] else RowsOf(objectType, StripAll(methods))
  {
    if methods == [] {
      PlaceholderPlain();
      SplitWhole(NoMethods, ',');
      StripTrimmed(NoMethods);
    } else {
      SplitJoined(methods);
    }
  }

  /** A name with neither a comma nor surrounding whitespace survives the split and strip unchanged. */
  predicate PlainName(name: string) {
    ',' !in name && (name == [] || (!IsSpace(name[0]) && !IsSpace(name[|name| - 1])))
  }

  lemma PlaceholderPlain()
    ensures PlainName(NoMethods)
  {
  }

  lemma ErrorPrefixCommaFree()
    ensures ',' !in ErrorPrefix
  {
  }

  /**
   * When every method name is plain, a type has exactly one row per method,
   * whose text is the method name, or only the "No public methods" row.
   */
  lemma EntryRowsOfPlainMethods(objectType: string, methods: seq<string>)
    requires forall k :: 0 <= k < |methods| ==> PlainName(methods[k])
    ensures EntryRows(Entry(objectType, Joined(methods)))
      == if methods == [] then [Row(objectType, NoMethods)] else RowsOf(objectType, methods)
  {
    EntryRowsOfMethods(objectType, methods);
    forall k | 0 <= k < |methods| ensures StripAll(methods)[k] == methods[k] {
      StripTrimmed(methods[k]);
    }
  }

  /** The error entry of a type yields one row per comma-separated piece of the message. */
  lemma ErrorEntryRows(objectType: string, message: string)
    ensures |EntryRows(Entry(objectType, Joined([ErrorPrefix + message])))| == Count(message, ',') + 1
  {
    ErrorPrefixCommaFree();
    CountAppend(ErrorPrefix, message, ',');
    CountAbsent(ErrorPrefix, ',');
  }

  lemma RowTypesAppend(a: seq<Row>, b: seq<Row>)
    ensures RowTypes(a + b) == RowTypes(a) + RowTypes(b)
  {
  }

  /** An entry's rows all carry its type, and there is at least one. */
  lemma EntryRowTypes(e: Entry, t: string)
    ensures t in RowTypes(EntryRows(e)) <==> e.objectType == t
  {
    if e.objectType == t {
      assert RowTypes(EntryRows(e))[0] == t;
    }
  }

  /** The types in the flattened rows are exactly the entries' types. */
  lemma {:induction false} FlattenTypes(data: seq<Entry>, t: string)
    ensures t in RowTypes(Flatten(data)) <==> exists k :: 0 <= k < |data| && data[k].objectType == t
    decreases |data|
  {
    if data != [] {
      var p, e := data[..|data| - 1], data[|data| - 1];
      FlattenTypes(p, t);
      RowTypesAppend(Flatten(p), EntryRows(e));
      EntryRowTypes(e, t);
      if exists k :: 0 <= k < |p| && p[k].objectType == t {
        var k :| 0 <= k < |p| && p[k].objectType == t;
        assert data[k] == p[k];
      }
      if exists k :: 0 <= k < |data| && data[k].objectType == t {
        var k :| 0 <= k < |data| && data[k].objectType == t;
        if k < |p| {
          assert p[k] == data[k];
        }
      }
    }
  }

  /** The types in the table before sorting are exactly the catalogue's keys. */
  lemma TableTypes(types: Dict<string, seq<string>>, t: string)
    requires Valid(types)
    ensures t in RowTypes(TableRows(types)) <==> t in types.keys
  {
    FlattenTypes(Entries(types), t);
  }

  /** A permutation of the rows has the same types. */
  lemma PermutedTypes(a: seq<Row>, b: seq<Row>, t: string)
    requires multiset(a) == multiset(b)
    ensures t in RowTypes(a) <==> t in RowTypes(b)
  {
    if t in RowTypes(a) {
      var k :| 0 <= k < |a| && RowTypes(a)[k] == t;
      assert a[k] in multiset(b);
      var j :| 0 <= j < |b| && b[j] == a[k];
      assert RowTypes(b)[j] == t;
    }
    if t in RowTypes(b) {
      var k :| 0 <= k < |b| && RowTypes(b)[k] == t;
      assert b[k] in multiset(a);
      var j :| 0 <= j < |a| && a[j] == b[k];
      assert RowTypes(a)[j] == t;
    }
  }

  /** The rows of one type's entry are of that type only. */
  lemma EntryRowsOfType(e: Entry, t: string)
    ensures OfType(EntryRows(e), t) == if e.objectType == t then EntryRows(e) else []
  {
    var rows := EntryRows(e);
    if e.objectType == t {
      WhereAll(rows, TypeIs(t));
    } else {
      WhereNone(rows, TypeIs(t));
    }
  }

  /** Of the rows of `p` and then `e`, a type's are those of `p`, then those of `e` if it has that type. */
  lemma FlattenLastOfType(p: seq<Entry>, e: Entry, t: string)
    ensures OfType(Flatten(p + [e]), t)
      == OfType(Flatten(p), t) + (if e.objectType == t then EntryRows(e) else [])
  {
    assert (p + [e])[..|p|] == p;
    WhereAppend(Flatten(p), EntryRows(e), TypeIs(t));
    EntryRowsOfType(e, t);
  }

  /** Of the flattened rows, a type's are those of its only entry. */
  lemma {:induction false} FlattenOfType(data: seq<Entry>, i: nat)
    requires i < |data|
    requires forall k :: 0 <= k < |data| && k != i ==> data[k].objectType != data[i].objectType
    ensures OfType(Flatten(data), data[i].objectType) == EntryRows(data[i])
    decreases |data|
  {
    var t := data[i].objectType;
    var p, e := data[..|data| - 1], data[|data| - 1];
    assert data == p + [e];
    FlattenLastOfType(p, e, t);
    if i < |p| {
      assert p[i] == data[i];
      FlattenOfType(p, i);
    } else {
      FlattenNoneOfType(p, t);
    }
  }

  /** No row of the flattened entries has a type that no entry has. */
  lemma {:induction false} FlattenNoneOfType(data: seq<Entry>, t: string)
    requires forall k :: 0 <= k < |data| ==> data[k].objectType != t
    ensures OfType(Flatten(data), t) == []
    decreases |data|
  {
    if data != [] {
      var p, e := data[..|data| - 1], data[|data| - 1];
      assert data == p + [e];
      FlattenLastOfType(p, e, t);
      FlattenNoneOfType(p, t);
    }
  }

  /**
   * In any permutation of the rows (the sorted table among them), the rows
   * of a catalogued type are, up to order, those its method list expands to.
   */
  lemma RowsPerType(types: Dict<string, seq<string>>, table: seq<Row>, t: string)
    requires Valid(types)
    requires multiset(table) == multiset(TableRows(types))
    requires t in types.entries
    ensures multiset(OfType(table, t)) == multiset(EntryRows(Entry(t, Joined(types.entries[t]))))
  {
    var data := Entries(types);
    var i := FirstIndex(types.keys, t);
    assert data[i] == Entry(t, Joined(types.entries[t]));
    FlattenOfType(data, i);
    WherePermutation(table, TableRows(types), TypeIs(t));
  }

  /** The loop of lines 110-116. */
  method BuildEntries(types: Dict<string, seq<string>>) returns (data: seq<Entry>)
    requires Valid(types)
    ensures data == Entries(types)
  {
    data := [];
    for i := 0 to |types.keys|
      invariant data == Entries(types)[..i]
    {
      var objClass := types.keys[i];
      var methods := types.entries[objClass];
      data := data + [Entry(objClass, if methods != [] then Join(methods, ", ") else NoMethods)];
      assert Entries(types)[..i + 1] == Entries(types)[..i] + [Entries(types)[i]];
    }
  }

  lemma FlattenPrefix(data: seq<Entry>, i: nat)
    requires i < |data|
    ensures Flatten(data[..i + 1]) == Flatten(data[..i]) + EntryRows(data[i])
  {
    assert data[..i + 1][..i] == data[..i];
  }

  lemma RowsOfPrefix(objectType: string, items: seq<string>, j: nat)
    requires j < |items|
    ensures RowsOf(objectType, items[..j + 1]) == RowsOf(objectType, items[..j]) + [Row(objectType, items[j])]
  {
    assert items[..j + 1][..j] == items[..j];
  }

  /** The inner loop of lines 125-130: one row per item, in order. */
  method AppendRows(processed: seq<Row>, objectType: string, items: seq<string>) returns (processed': seq<Row>)
    ensures processed' == processed + RowsOf(objectType, items)
  {
    processed' := processed;
    for j := 0 to |items|
      invariant processed' == processed + RowsOf(objectType, items[..j])
    {
      processed' := processed' + [Row(objectType, items[j])];
      RowsOfPrefix(objectType, items, j);
    }
    assert items[..|items|] == items;
  }

  /** Lines 120-130 for one entry: split its methods text and append its rows. */
  method AppendEntryRows(processed: seq<Row>, entry: Entry) returns (processed': seq<Row>)
    ensures processed' == processed + EntryRows(entry)
  {
    var stringValue, commaSeparated := entry.objectType, entry.methods;
    var items := Items(commaSeparated);
    processed' := AppendRows(processed, stringValue, items);
  }

  /** The nested loops of lines 118-130. */
  method ExpandEntries(data: seq<Entry>) returns (processed: seq<Row>)
    ensures processed == Flatten(data)
  {
    processed := [];
    for i := 0 to |data|
      invariant processed == Flatten(data[..i])
    {
      processed := AppendEntryRows(processed, data[i]);
      FlattenPrefix(data, i);
    }
    assert data[..|data|] == data;
  }

  /** `df.sort_values(by="Object Type (Class)")` (lines 132-133). */
  function SortTable(rows: seq<Row>): (r: Result<seq<Row>, ProcessError>)
    ensures r.Failure? <==> rows == []
    ensures r.Failure? ==> r.error == MissingColumn(TypeColumn)
    ensures r.Success? ==> SortedBy(r.value, RowType) && multiset(r.value) == multiset(rows)
  {
    if rows == [] then Failure(MissingColumn(TypeColumn)) else Success(SortBy(rows, RowType))
  }

  /**
   * `process_model_objects` (lines 50-135), with `progress` the counts the
   * progress bar is given. It fails exactly when no "OS:" object exists;
   * otherwise the table is sorted by type and a permutation of the
   * expanded rows, and the sample handles are those of the scan.
   */
  method ProcessModelObjects(objs: seq<ModelObject>)
    returns (result: Result<Catalogue, ProcessError>, progress: seq<nat>)
    ensures result.Failure? <==> Catalogued(objs) == []
    ensures result.Failure? ==> result.error == MissingColumn(TypeColumn)
    ensures result.Success? ==>
      && result.value.table != []
      && SortedBy(result.value.table, RowType)
      && multiset(result.value.table) == multiset(TableRows(Scan(objs, Calls(objs)).types))
      && result.value.sampleHandles == Scan(objs, Calls(objs)).handles
    ensures |progress| == |objs| && forall k :: 0 <= k < |objs| ==> progress[k] == k + 1
  {
    var types, handles;
    types, handles, progress := CollectObjectTypes(objs);
    var data := BuildEntries(types);
    var processed := ExpandEntries(data);
    assert processed == [] <==> Catalogued(objs) == [] by {
      if Catalogued(objs) != [] {
        assert Catalogued(objs)[0] in types.keys;
      }
    }
    var sorted := SortTable(processed);
    if sorted.Failure? {
      result := Failure(sorted.error);
    } else {
      result := Success(Catalogue(sorted.value, handles));
    }
  }
}
