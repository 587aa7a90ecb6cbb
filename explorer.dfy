/**
 * The filter block of the explorer page (lines 208-227): the class options
 * offered in the select box, and the rows shown for a selected class and a
 * method keyword.
 */
module Explorer {
  import opened Seqs
  import opened Strings
  import opened Dicts
  import opened Sorting
  import opened Introspection
  import opened Table

  const All := "All"

  /** `["All"] + list(df_sorted["Object Type (Class)"].unique())` (lines 208-209). */
  function ClassOptions(table: seq<Row>): seq<string> {
    [All] + Unique(RowTypes(table))
  }

  function MentionsKeyword(keyword: string): Row -> bool {
    (r: Row) => ContainsIgnoringCase(r.methodName, keyword)
  }

  /** A row passes the class filter and the keyword filter. */
  function Passes(selectedClass: string, keyword: string): Row -> bool {
    (r: Row) =>
      && (selectedClass == All || r.objectType == selectedClass)
      && (keyword == [] || ContainsIgnoringCase(r.methodName, keyword))
  }

  /**
   * `df_filtered` (lines 217-225): the rows of the selected class (all rows
   * for "All"), then those whose method text holds the keyword, ignoring
   * case (all of them for an empty keyword). The two stages together select,
   * in table order, each row that passes both filters, every copy of it, and
   * nothing else; so the count shown above the table is the number of such
   * rows.
   */
  function FilterRows(table: seq<Row>, selectedClass: string, keyword: string): (shown: seq<Row>)
    ensures shown == Where(table, Passes(selectedClass, keyword))
    ensures |shown| <= |table|
    ensures multiset(shown) <= multiset(table)
    ensures forall k :: 0 <= k < |shown| ==>
      && (selectedClass != All ==> shown[k].objectType == selectedClass)
      && (keyword != [] ==> ContainsIgnoringCase(shown[k].methodName, keyword))
    ensures forall k :: 0 <= k < |table| ==>
      ((selectedClass == All || table[k].objectType == selectedClass)
       && (keyword == [] || ContainsIgnoringCase(table[k].methodName, keyword))
       ==> table[k] in shown)
  {
    var byClass := if selectedClass != All then OfType(table, selectedClass) else table;
    var shown := if keyword != [] then Where(byClass, MentionsKeyword(keyword)) else byClass;
    TwoStages(table, selectedClass, keyword);
    shown
  }

  /** The class stage followed by the keyword stage is one selection by both. */
  lemma TwoStages(table: seq<Row>, selectedClass: string, keyword: string)
    ensures (if keyword != [] then Where(if selectedClass != All then OfType(table, selectedClass) else table, MentionsKeyword(keyword))
             else if selectedClass != All then OfType(table, selectedClass) else table)
      == Where(table, Passes(selectedClass, keyword))
  {
    var both := Passes(selectedClass, keyword);
    if selectedClass != All && keyword != [] {
      WhereWhere(table, TypeIs(selectedClass), MentionsKeyword(keyword), both);
    } else if selectedClass != All {
      WhereSame(table, TypeIs(selectedClass), both);
    } else if keyword != [] {
      WhereSame(table, MentionsKeyword(keyword), both);
    } else {
      WhereAll(table, both);
    }
  }

  /** The rows are shown in the order of the sorted table. */
  lemma FilterRowsInOrder(table: seq<Row>, selectedClass: string, keyword: string)
    ensures exists idx :: InOrder(FilterRows(table, selectedClass, keyword), table, idx)
  {
    var shown := FilterRows(table, selectedClass, keyword);
    WhereInOrder(table, Passes(selectedClass, keyword));
    var idx :| InOrder(Where(table, Passes(selectedClass, keyword)), table, idx);
    assert InOrder(shown, table, idx);
  }

  lemma AllIsNoType()
    ensures !StartsWith(All, Namespace)
  {
    assert All[0] != Namespace[0];
  }

  /**
   * For the table of a scan, the options are "All" followed by each
   * catalogued type once; "All" is never a type, and every type offered has
   * a sample handle, so the fallback at lines 270-272 is never taken.
   */
  lemma OptionsOfScan(objs: seq<ModelObject>, calls: seq<Outcome>, table: seq<Row>)
    requires |calls| == |objs|
    requires multiset(table) == multiset(TableRows(Scan(objs, calls).types))
    ensures ClassOptions(table)[0] == All
    ensures NoDuplicates(ClassOptions(table))
    ensures forall t :: t in ClassOptions(table)[1..] <==> t in Catalogued(objs)
    ensures forall t :: t in ClassOptions(table)[1..] ==> t in Scan(objs, calls).handles.entries
  {
    var st := Scan(objs, calls);
    ScanResult(objs, calls);
    var opts := ClassOptions(table);
    assert opts[1..] == Unique(RowTypes(table));
    forall t ensures t in opts[1..] <==> t in Catalogued(objs) {
      PermutedTypes(table, TableRows(st.types), t);
      TableTypes(st.types, t);
    }
    AllIsNoType();
    assert All !in opts[1..];
    forall i, j | 0 <= i < j < |opts| ensures opts[i] != opts[j] {
      if i == 0 {
        assert opts[j] in opts[1..];
      } else {
        assert opts[i] == opts[1..][i - 1] && opts[j] == opts[1..][j - 1];
      }
    }
  }

  /** Of a table sorted by type, the distinct types come out in ascending order. */
  lemma OptionsSorted(table: seq<Row>)
    requires SortedBy(table, RowType)
    ensures SortedBy(ClassOptions(table)[1..], Identity)
  {
    var ts := RowTypes(table);
    var u := Unique(ts);
    assert ClassOptions(table)[1..] == u;
    forall a, b | 0 <= a < b < |u| ensures LessEq(u[a], u[b]) {
      var i, j := FirstIndex(ts, u[a]), FirstIndex(ts, u[b]);
      assert RowType(table[i]) == u[a] && RowType(table[j]) == u[b];
    }
  }

  /**
   * Selecting a catalogued type without a keyword shows one row per
   * comma-separated piece of that type's methods text.
   */
  lemma ShownForClass(types: Dict<string, seq<string>>, table: seq<Row>, t: string)
    requires Valid(types)
    requires multiset(table) == multiset(TableRows(types))
    requires t in types.entries && t != All
    ensures |FilterRows(table, t, "")| == Count(Joined(types.entries[t]), ',') + 1
  {
    RowsPerType(types, table, t);
    assert FilterRows(table, t, "") == OfType(table, t);
    assert |multiset(OfType(table, t))| == |multiset(EntryRows(Entry(t, Joined(types.entries[t]))))|;
  }
}
