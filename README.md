# OpenStudio Methods Explorer: object catalogue and table filter

This project models the core of the OpenStudio Methods Explorer (`app.py`), a
Streamlit page that loads an OpenStudio model and lists, for each object type
in it, the methods the OpenStudio Python bindings offer. The model has two parts.

`process_model_objects` (lines 50-135) does the following.

- It visits every model object in enumeration order.
- It catalogues each `"OS:"` type once, at the first object of that type. The
  catalogue is the insertion-ordered dictionary `unique_object_types`. The
  first object's handle goes into `sample_object_handles`.
- It derives an accessor name from the type: `"OS:"` becomes `"to_"`, colons
  are removed, and surrounding whitespace is stripped. It calls that accessor
  on the generic object to get a typed view.
- It stores the sorted public callable members of that view as the type's
  methods. Failures become the entry `"Error getting methods: <message>"`.
- It joins each type's methods with `", "`, or uses `"No public methods"` for
  an empty list. It splits that text again on `","`, strips each piece, and
  makes one row per piece. It sorts the rows by type.

The display filter (lines 208-227) builds the class options (`"All"` followed
by the distinct types of the table). It then keeps the rows of the selected
class whose method text contains the keyword, ignoring case.

Modules:

- `Wrappers`: `Option` and `Result`.
- `Seqs`: first occurrence, `Unique` (pandas `unique()` and dictionary key order), and the boolean-mask selection `Where`.
- `Strings`: Python's `str.replace`, `strip`/`lstrip`/`rstrip` (whitespace as `str.isspace` defines it), `split` on one character, `join`, substring search, and `<=` on strings (code-point order).
- `Dicts`: the insertion-ordered `dict`.
- `Sorting`: a sort by a string key that promises an ordered permutation.
- `Introspection`: the scan loop (lines 72-105).
- `Table`: table construction and the final sort (lines 109-135).
- `Explorer`: the filter block (lines 208-227).

The OpenStudio SDK and Python's reflection are inputs.

- A `ModelObject` carries its type description, its handle, and its member list (`dir()` with a callable flag per name).
- It also carries the accessors of its generic object, as a map from accessor name to `Outcome`. An `Outcome` is one of:
  - `Raises(message)`;
  - `NotOptional` (`is_initialized()` or `get()` raised);
  - `Present(members)`;
  - `Absent`.
- An accessor name that is not in the map raises the `AttributeError` that `getattr` raises.

`CallNamedAccessor`, `IntrospectObject`, `VisitObject` and `CollectObjectTypes` are the imperative rendering of the loop at lines 72-105. The first three follow the functions `Lookup`, `Introspect` and `Step` statement for statement, and each is proved equal to its function. The lemmas are stated on the functions.

Most scan lemmas take the sequence of call outcomes as a parameter (`calls`). `Calls(objs)` is the sequence the program actually produces, one call per object through its derived accessor name. `CollectObjectTypes` and `ProcessModelObjects` are stated with it.

Where a description of the intended behaviour differs from the code, the model follows the code:

- **Raising accessor.** An accessor that raises, or that does not exist, gives the error entry. It does not fall back to the generic object: the fallback only covers `is_initialized()`/`get()` raising.
- **Empty catalogue.** A model without any `"OS:"` object does not give an empty table. `pd.DataFrame([])` has no "Object Type (Class)" column, so `sort_values` raises `KeyError`, and the caller's handler (line 173) reports it. This is the `Failure(MissingColumn("Object Type (Class)"))` of `ProcessModelObjects`.
- **Accessor name.** The name replaces `"OS:"` with `"to_"`; the prefix is not simply removed. A `"OS:"` later in the type is replaced too.
- **Absent optional.** The `specific_obj` of an earlier iteration is reused. When there is none, the `UnboundLocalError` becomes the error entry.
- **Commas in an entry.** An error message with commas gives one row per comma-separated piece, not exactly one row (`ErrorEntryRows`).

## Model

| member | source | states |
|---|---|---|
| `Strings.ReplaceRemoves` | app.py:75-76 | replacing ":" by nothing leaves no ":", adds no character, and keeps every other character in order: the result is the selection of the characters other than ":" |
| `Strings.ReplaceAbsent` | app.py:75-76 | a string without a match is left unchanged by `replace` |
| `Strings.LStripSuffix` | app.py:76 | `lstrip` drops a prefix made only of whitespace and keeps the rest of the input, which does not start with whitespace |
| `Strings.RStripPrefix` | app.py:76 | `rstrip` drops a suffix made only of whitespace and keeps the rest of the input, which does not end with whitespace |
| `Strings.Strip` | app.py:76 | `strip` gives a slice of the input with only whitespace before and after it, and the slice neither starts nor ends with whitespace |
| `Strings.StripTrimmed` | app.py:122 | a string with no surrounding whitespace is its own `strip` |
| `Strings.Split` | app.py:123 | `split(',')` gives one piece more than there are commas; no piece holds a comma; joining the pieces with "," gives the text back |
| `Strings.SplitJoined` | app.py:115-123 | splitting `", ".join(names)` on "," and stripping gives the stripped names back, for a non-empty list of names none of which holds a comma (line 115 never joins an empty list) |
| `Strings.LessEqTotal` | app.py:99 | code-point order on strings is total |
| `Strings.LessEqTransitive` | app.py:99 | code-point order on strings is transitive |
| `Strings.LessEqAntisymmetric` | app.py:99 | code-point order on strings is antisymmetric |
| `Dicts.Put` | app.py:80-82 | `d[k] = v` keeps keys unique; a new key goes last, an existing key keeps its place; only `k`'s value changes |
| `Sorting.SortBy` | app.py:99 | `sorted` gives an ascending permutation of its input |
| `Seqs.Unique` | app.py:208-209 | `unique()` lists each element once, omits none, and keeps the order of first appearance |
| `Seqs.Where` | app.py:220-225 | a boolean-mask selection keeps every copy of each row that satisfies the condition and no copy of any other row |
| `Seqs.WhereInOrder` | app.py:220-225 | the selected rows keep the order they have in the input |
| `Seqs.WhereWhere` | app.py:217-225 | selecting by one condition and then by another is one selection by both |
| `Seqs.WherePermutation` | app.py:133 | the rows a condition selects from a permutation are a permutation of those it selects from the original |
| `Introspection.AccessorNameColonless` | app.py:75-76 | the accessor name `AccessorName` derives contains no ":" |
| `Introspection.AccessorNameShape` | app.py:75-76 | for an "OS:" type the name `AccessorName` derives starts with "to_" and is "to_" + the rest of the type with "OS:" replaced, colons removed and trailing whitespace stripped |
| `Introspection.AccessorNameSimple` | app.py:75-76 | when the rest holds no further "OS:", the name is "to_" + the rest without colons, right-stripped |
| `Introspection.Candidates` | app.py:94-98 | the comprehension keeps exactly the callable members whose names start with neither "_" nor "to_" |
| `Introspection.PublicMethods` | app.py:93-99 | the stored method list is ascending and a permutation of the comprehension; a name is in it iff it is a callable public member |
| `Introspection.Catalogued` | app.py:78 | the catalogued types are exactly the object types starting with "OS:" |
| `Introspection.StepShape` | app.py:78-102 | one iteration (`Step`) either appends the type to both dictionaries (handle, and the method list of its view) or changes nothing |
| `Introspection.ScanKeys` | app.py:72-82 | after the loop (`Scan`, the steps in order) the keys are the distinct "OS:" types in order of first encounter, and both dictionaries have the same keys, so the test at line 79 always holds |
| `Introspection.FirstIsNew` | app.py:78 | an object is the first of its "OS:" type iff its type is not catalogued yet when it is visited |
| `Introspection.LaterObjectIgnored` | app.py:78 | a later object of a catalogued type, or a non-"OS:" object, leaves the whole state unchanged |
| `Introspection.FirstObjectCatalogued` | app.py:78-102 | the first object of a type appends the type to both dictionaries, with its handle and its view's method list, and changes no other entry |
| `Introspection.StepKeeps` | app.py:78-82 | one iteration never changes an existing entry of either dictionary |
| `Introspection.EntriesStable` | app.py:72-105 | once an entry is made, later iterations never change it |
| `Introspection.FirstHandle` | app.py:79-80 | each type's sample handle is the handle of the first object of that type |
| `Introspection.HandleOfFirst` | app.py:79-80 | every sample handle belongs to the first object of its type |
| `Introspection.CatalogEntry` | app.py:85-102 | a type's methods are what its first object's accessor call gave, given what was bound at that point |
| `Introspection.AccessorOutcomes` | app.py:85-102 | the cases of `Introspect`: a raising call gives exactly the error entry; a non-optional result gives the generic object's methods; a present optional gives the unwrapped object's; an absent one gives the earlier bound view's methods, or the error entry when nothing is bound |
| `Introspection.MissingAccessor` | app.py:86-102 | a first object without the derived accessor gets an error entry carrying the `AttributeError` text; with `Calls`, each object's call goes through the accessor named after its own type |
| `Introspection.SpecificStep` | app.py:87-91 | only a first object whose call gives a non-optional or present result rebinds `specific_obj` |
| `Seqs.LastSomeIsLast` | app.py:87-91 | the latest present binding is absent iff there is none, and otherwise no later binding follows it |
| `Introspection.ScanSpecific` | app.py:85-91 | after the scan, `specific_obj` is the latest of the rebindings, one per object in order (`Rebindings`) |
| `Introspection.LatestRebinding` | app.py:85-91 | the latest rebinding is absent iff no first object rebinds, and is otherwise the view of the latest first object that does |
| `Introspection.SpecificObject` | app.py:85-91 | `specific_obj` is unbound iff no first object so far rebound it; otherwise it is the view of the latest one that did |
| `Introspection.ScanResult` | app.py:72-82 | both dictionaries have the distinct "OS:" types as keys, and each sample handle is its first object's |
| `Introspection.IntrospectObject` | app.py:85-102 | the two `try` blocks give the stored list and the new binding of `specific_obj`, as `Introspect` defines them |
| `Introspection.VisitObject` | app.py:78-102 | one pass of the loop body is one `Step` of the scan, with the outcome `CallNamedAccessor` gives (`Lookup`: the accessor's outcome, or the `AttributeError` for a missing name) |
| `Introspection.CollectObjectTypes` | app.py:72-105 | the loop returns the scan's dictionaries; the keys are the distinct "OS:" types in first-encounter order and match; the progress counts are 1..n |
| `Table.Items` | app.py:122-123 | a methods text gives one item more than it has commas |
| `Table.EntryRows` | app.py:119-130 | an entry gives one row more than its text has commas, at least one, all of its type |
| `Table.Flatten` | app.py:118-130 | the expanded rows number at least the entries |
| `Table.EntryRowsOfMethods` | app.py:115-130 | with no comma in any name, the rows of the text `Joined` gives are the stripped names in order, or the single "No public methods" row (that placeholder has no comma and no surrounding whitespace) |
| `Table.EntryRowsOfPlainMethods` | app.py:115-130 | with names free of commas and surrounding whitespace, there is exactly one row per method with the method's name, or one placeholder row |
| `Table.ErrorEntryRows` | app.py:101-130 | an error entry yields one row per comma-separated piece of the message (the error prefix holds no comma) |
| `Table.FlattenTypes` | app.py:118-130 | a type occurs in the expanded rows iff some entry has it |
| `Table.TableTypes` | app.py:110-130 | the types in the table are exactly the catalogue's keys |
| `Table.PermutedTypes` | app.py:133 | reordering the rows keeps the set of types |
| `Table.EntryRowsOfType` | app.py:119-130 | an entry's rows are all of its own type |
| `Table.FlattenLastOfType` | app.py:118-130 | the rows of a type, after one more entry, are the earlier ones followed by that entry's if it has the type |
| `Table.FlattenOfType` | app.py:118-130 | with distinct entry types, a type's rows are exactly its entry's rows, in order |
| `Table.FlattenNoneOfType` | app.py:118-130 | no row has a type that no entry has |
| `Table.RowsPerType` | app.py:110-133 | over the entries `Entries` builds, in the sorted table the rows of a type are, up to order, exactly those its method list expands to |
| `Table.BuildEntries` | app.py:110-116 | the loop builds `data` as `Entries` defines it: one entry per catalogued type, in key order, carrying that type's joined method text |
| `Table.AppendRows` | app.py:125-130 | the inner loop appends `RowsOf(objectType, items)`: one row per item, in item order, each of the given type |
| `Table.AppendEntryRows` | app.py:120-130 | splitting an entry's text and running the inner loop appends exactly the entry's rows |
| `Table.ExpandEntries` | app.py:118-130 | the nested loops build exactly the flattened rows |
| `Table.SortTable` | app.py:132-133 | sorting fails exactly on an empty table, with the missing type column; otherwise the result is ordered by type and a permutation of the rows |
| `Table.ProcessModelObjects` | app.py:50-135 | fails exactly when no "OS:" object exists; otherwise a non-empty table sorted by type that is a permutation of the expanded rows, with the scan's sample handles; progress counts 1..n |
| `Explorer.FilterRows` | app.py:217-227 | the class stage and the keyword stage together select each row of the selected class (any for "All") whose method text holds the keyword ignoring case (any for ""), every copy of it, and nothing else; so shown ≤ total and N in "Showing N" is the number of such rows |
| `Explorer.FilterRowsInOrder` | app.py:217-225 | the shown rows keep the order of the sorted table |
| `Explorer.OptionsOfScan` | app.py:208-209 | the options `ClassOptions` builds are "All" followed by each catalogued type exactly once; every type offered has a sample handle (lines 252, 270-272); "All" itself is never an "OS:" type |
| `Explorer.OptionsSorted` | app.py:208-209 | for the sorted table the types are offered in ascending order |
| `Explorer.ShownForClass` | app.py:219-227 | selecting a type without a keyword shows one row per comma-separated piece of its methods text |

## Left out

- Model loading (`load_osm_file_as_model`, lines 11-43): a wrapper around OpenStudio's `VersionTranslator` and `Model.load`, which are foreign SDK calls.
- SDK object access (`getModelObjects`, `getModelObject(handle).get()`, `handle`, `iddObjectType`): these are the input. The object looked up again by its handle (line 83) is taken to be the visited object itself.
- Python reflection (`getattr`, `dir`, `callable`): each object's accessor outcomes and member list are input. A member access that raises inside the comprehension (lines 94-98) is not modelled: `callable(getattr(specific_obj, m, None))` is the `isCallable` flag.
- The `UnboundLocalError` text is that of Python 3.11 and later; earlier versions word it differently.
- The `AttributeError` text of a missing accessor is assumed to be CPython's `'<class>' object has no attribute '<name>'`, with `ModelObject` assumed as the class name of the generic object (`GenericClass`); the bindings' real class name and message are not part of this model.
- The Streamlit page: layout, the progress bar (only the `processed_count` values it receives are modelled), `st.cache_resource` memoisation, temp-file handling, session state, and the example-object display (lines 139-274, apart from the filter block). The display of an object's text (line 264) is SDK serialisation.
- Explorer.FilterRows: pandas `str.contains` reads the keyword as a regular expression (lines 224-225). The model reads it as a literal substring, so it agrees only for keywords without regex metacharacters. Case folding covers ASCII letters only, while `re.IGNORECASE` also folds other letters.
- Table.SortTable: pandas `sort_values` defaults to an unstable sort, so the order of rows within one type is not stated. Only ordering by type and being a permutation are promised, and `RowsPerType` gives each type's rows up to order.
- `Sorting.SortBy` is an insertion sort standing in for Python's `sorted` and pandas' `sort_values`. No property of that particular algorithm is relied on.
- The "Showing N of M rows" text (line 227): only the two counts are modelled, not the text.
