/**
 * The object scan of `process_model_objects` in app.py: every model object
 * is visited in enumeration order; each "OS:" type is catalogued once, at its
 * first object, whose handle becomes the type's sample handle and whose
 * typed view (reached through an accessor whose name is derived from the
 * type) is asked for its public methods. Failures become an error entry.
 *
 * The SDK and Python's reflection are inputs here: a model object carries
 * the accessors its generic object has (by name, with what calling each one
 * gives) and the member list `dir()` reports for the generic object.
 */
module Introspection {
  import opened Wrappers
  import opened Seqs
  import opened Strings
  import opened Dicts
  import opened Sorting

  type Handle = string

  /** One entry of `dir(x)`: a member's name and whether it is callable. */
  datatype Member = Member(name: string, isCallable: bool)

  /** What calling a typed-view accessor on the generic object gives. */
  datatype Outcome =
    | Raises(message: string)        // the call raised; `message` is the exception's text
    | NotOptional                    // `is_initialized()` or `get()` on the result raised
    | Present(members: seq<Member>)  // an initialized optional; the members of what `get()` returns
    | Absent                         // an optional that is not initialized

  /**
   * A model object as the scan sees it: its IDD type description, its
   * handle, the accessors of its generic object, and the generic object's
   * members.
   */
  datatype ModelObject = ModelObject(
    objectType: string,
    handle: Handle,
    accessors: map<string, Outcome>,
    members: seq<Member>)

  const Namespace := "OS:"
  const CastPrefix := "to_"
  const PrivatePrefix := "_"
  const ErrorPrefix := "Error getting methods: "
  /** The Python class of the generic object, as an AttributeError names it. */
  const GenericClass := "ModelObject"
  /** The text of the UnboundLocalError raised by reading `specific_obj` before any assignment. */
  const UnboundSpecific := "cannot access local variable 'specific_obj' where it is not associated with a value"

  /** The accessor name derived from an object type: "OS:" becomes "to_", colons go, whitespace is stripped. */
  function AccessorName(objectType: string): string {
    Strip(Replace(Replace(objectType, Namespace, CastPrefix), ":", ""))
  }

  /** The derived name never holds a colon. */
  lemma AccessorNameColonless(objectType: string)
    ensures ':' !in AccessorName(objectType)
  {
    ReplaceRemoves(Replace(objectType, Namespace, CastPrefix), ':');
  }

  /**
   * For an "OS:" type the derived name is "to_" followed by the rest of the
   * type with "OS:" replaced and colons removed, trailing whitespace
   * stripped (whitespace right after "OS:" stays).
   */
  lemma AccessorNameShape(objectType: string)
    requires StartsWith(objectType, Namespace)
    ensures StartsWith(AccessorName(objectType), CastPrefix)
    ensures AccessorName(objectType)
      == CastPrefix + RStrip(Replace(Replace(objectType[|Namespace|..], Namespace, CastPrefix), ":", ""))
  {
    var rest := objectType[|Namespace|..];
    var inner := Replace(rest, Namespace, CastPrefix);
    assert objectType == Namespace + rest;
    assert Replace(objectType, Namespace, CastPrefix) == CastPrefix + inner;
    ReplaceCharAfter(CastPrefix, inner, ':');
    var colonless := Replace(inner, ":", "");
    assert !IsSpace(CastPrefix[0]);
    LStripNonSpace(CastPrefix, colonless);
    RStripAfter(CastPrefix, colonless);
    assert (CastPrefix + RStrip(colonless))[..|CastPrefix|] == CastPrefix;
  }

  /** When the rest of an "OS:" type holds no further "OS:", only its colons go. */
  lemma AccessorNameSimple(objectType: string)
    requires StartsWith(objectType, Namespace) && !Contains(objectType[|Namespace|..], Namespace)
    ensures AccessorName(objectType) == CastPrefix + RStrip(Replace(objectType[|Namespace|..], ":", ""))
  {
    AccessorNameShape(objectType);
    ReplaceAbsent(objectType[|Namespace|..], Namespace, CastPrefix);
  }

  /** Neither private (leading "_") nor a cast (leading "to_"). */
  predicate IsPublic(name: string) {
    !StartsWith(name, PrivatePrefix) && !StartsWith(name, CastPrefix)
  }

  /** The list comprehension over `dir(specific_obj)`, before sorting. */
  function Candidates(members: seq<Member>): (names: seq<string>)
    ensures forall n :: n in names <==> Member(n, true) in members && IsPublic(n)
    decreases |members|
  {
    if members == [] then []
    else
      var m := members[0];
      assert members == [m] + members[1..];
      (if m.isCallable && IsPublic(m.name) then [m.name] else []) + Candidates(members[1..])
  }

  function Identity(s: string): string {
    s
  }

  /**
   * `sorted(methods)`: ascending, holding exactly the callable public
   * members, each as often as the comprehension yields it.
   */
  function PublicMethods(members: seq<Member>): (methods: seq<string>)
    ensures SortedBy(methods, Identity)
    ensures forall n :: n in methods <==> Member(n, true) in members && IsPublic(n)
    ensures multiset(methods) == multiset(Candidates(members))
  {
    var candidates := Candidates(members);
    var sorted := SortBy(candidates, Identity);
    assert forall n :: n in sorted <==> n in multiset(sorted);
    assert forall n :: n in candidates <==> n in multiset(candidates);
    sorted
  }

  /** The text of the AttributeError that `getattr` raises for a missing accessor. */
  function MissingAttribute(name: string): string {
    "'" + GenericClass + "' object has no attribute '" + name + "'"
  }

  /** `getattr(obj_, name)()`: a missing accessor raises AttributeError. */
  function Lookup(o: ModelObject, name: string): Outcome {
    if name in o.accessors then o.accessors[name] else Raises(MissingAttribute(name))
  }

  /** Calling the accessor whose name is derived from the object's type. */
  function CallAccessor(o: ModelObject): Outcome {
    Lookup(o, AccessorName(o.objectType))
  }

  /** The method list stored for a type, and what `specific_obj` is bound to afterwards. */
  datatype Introspected = Introspected(methods: seq<string>, specific: Option<seq<Member>>)

  /**
   * The two nested `try` blocks: a raising accessor gives the error entry
   * and leaves `specific_obj` alone; a non-optional result falls back to the
   * generic object; a present optional is unwrapped; an absent one leaves
   * `specific_obj` as the earlier iteration left it, and reading it unbound
   * gives the error entry. `specific` stands for the bound object by its members.
   */
  function Introspect(outcome: Outcome, generic: seq<Member>, specific: Option<seq<Member>>): Introspected {
    match outcome
    case Raises(message) => Introspected([ErrorPrefix + message], specific)
    case NotOptional => Introspected(PublicMethods(generic), Some(generic))
    case Present(members) => Introspected(PublicMethods(members), Some(members))
    case Absent =>
      if specific.Some? then Introspected(PublicMethods(specific.value), specific)
      else Introspected([ErrorPrefix + UnboundSpecific], specific)
  }

  /** `unique_object_types`, `sample_object_handles` and `specific_obj` between iterations. */
  datatype ScanState = ScanState(
    types: Dict<string, seq<string>>,
    handles: Dict<string, Handle>,
    specific: Option<seq<Member>>)

  /**
   * One iteration of the scan loop, given what calling the object's
   * derived accessor gives (`call`; only a first object's call is used).
   */
  function Step(st: ScanState, o: ModelObject, call: Outcome): (r: ScanState)
    requires Valid(st.types) && Valid(st.handles)
    ensures Valid(r.types) && Valid(r.handles)
  {
    var t := o.objectType;
    if t !in st.types.entries && StartsWith(t, Namespace) then
      var handles := if t !in st.handles.entries then Put(st.handles, t, o.handle) else st.handles;
      var types := Put(st.types, t, []);
      var view := Introspect(call, o.members, st.specific);
      ScanState(Put(types, t, view.methods), handles, view.specific)
    else st
  }

  /**
   * The state after the scan loop has visited `objs`, where `calls[k]` is
   * what calling the derived accessor of object `k` gives.
   */
  function Scan(objs: seq<ModelObject>, calls: seq<Outcome>): (st: ScanState)
    requires |calls| == |objs|
    ensures Valid(st.types) && Valid(st.handles)
    decreases |objs|
  {
    if objs == [] then ScanState(Empty(), Empty(), None)
    else
      var n := |objs| - 1;
      Step(Scan(objs[..n], calls[..n]), objs[n], calls[n])
  }

  /** What the accessor calls of `objs` give, one per object. */
  function Calls(objs: seq<ModelObject>): (calls: seq<Outcome>)
    ensures |calls| == |objs|
    ensures forall k :: 0 <= k < |objs| ==> calls[k] == CallAccessor(objs[k])
  {
    seq(|objs|, k requires 0 <= k < |objs| => CallAccessor(objs[k]))
  }

  function ObjectType(o: ModelObject): string {
    o.objectType
  }

  /** The type column of `objs`, object by object. */
  function TypesOf(objs: seq<ModelObject>): (ts: seq<string>)
    ensures |ts| == |objs|
    ensures forall k :: 0 <= k < |objs| ==> ts[k] == objs[k].objectType
  {
    Map(objs, ObjectType)
  }

  /** The "OS:" types of `objs`, in order and with repeats. */
  function Catalogued(objs: seq<ModelObject>): (ts: seq<string>)
    ensures forall t :: t in ts <==> t in TypesOf(objs) && StartsWith(t, Namespace)
    decreases |objs|
  {
    if objs == [] then []
    else
      var p, o := objs[..|objs| - 1], objs[|objs| - 1];
      assert TypesOf(objs) == TypesOf(p) + [o.objectType];
      Catalogued(p) + (if StartsWith(o.objectType, Namespace) then [o.objectType] else [])
  }

  /** Object `i` is the first of its type, and that type is an "OS:" type. */
  predicate IsFirst(objs: seq<ModelObject>, i: nat)
    requires i < |objs|
  {
    && StartsWith(objs[i].objectType, Namespace)
    && forall j :: 0 <= j < i ==> objs[j].objectType != objs[i].objectType
  }

  lemma ScanPrefix(objs: seq<ModelObject>, calls: seq<Outcome>, i: nat)
    requires |calls| == |objs| && i < |objs|
    ensures Scan(objs[..i + 1], calls[..i + 1]) == Step(Scan(objs[..i], calls[..i]), objs[i], calls[i])
  {
    assert objs[..i + 1][..i] == objs[..i];
    assert calls[..i + 1][..i] == calls[..i];
  }

  /**
   * One iteration either appends the object's type to both dictionaries,
   * with the object's handle and the method list of its typed view, or
   * changes nothing at all.
   */
  lemma StepShape(st: ScanState, o: ModelObject, call: Outcome)
    requires Valid(st.types) && Valid(st.handles) && st.types.keys == st.handles.keys
    ensures var t := o.objectType;
      var view := Introspect(call, o.members, st.specific);
      if t !in st.types.entries && StartsWith(t, Namespace) then
        && Step(st, o, call).types.keys == st.types.keys + [t]
        && Step(st, o, call).handles.keys == st.handles.keys + [t]
        && Step(st, o, call).types.entries == st.types.entries[t := view.methods]
        && Step(st, o, call).handles.entries == st.handles.entries[t := o.handle]
        && Step(st, o, call).specific == view.specific
      else Step(st, o, call) == st
  {
    var t := o.objectType;
    if t !in st.types.entries && StartsWith(t, Namespace) {
      var view := Introspect(call, o.members, st.specific);
      var types := Put(st.types, t, []);
      assert t !in st.handles.entries;
      assert types.keys == st.types.keys + [t];
      assert Put(types, t, view.methods).keys == types.keys;
      assert types.entries[t := view.methods] == st.types.entries[t := view.methods];
    }
  }

  /** Membership in Unique(s) is membership in s. */
  lemma InUnique(s: seq<string>, t: string)
    ensures t in Unique(s) <==> t in s
  {
    var u := Unique(s);
    if t in u {
      var k :| 0 <= k < |u| && u[k] == t;
    }
    if t in s {
      var k :| 0 <= k < |s| && s[k] == t;
    }
  }

  /**
   * The catalogue's keys are the distinct "OS:" types in order of first
   * encounter, and the sample handles have exactly the same keys.
   */
  lemma {:induction false} ScanKeys(objs: seq<ModelObject>, calls: seq<Outcome>)
    requires |calls| == |objs|
    ensures Scan(objs, calls).types.keys == Unique(Catalogued(objs))
    ensures Scan(objs, calls).handles.keys == Scan(objs, calls).types.keys
    decreases |objs|
  {
    if objs != [] {
      var n := |objs| - 1;
      var p, t := objs[..n], objs[n].objectType;
      ScanKeys(p, calls[..n]);
      var c := Catalogued(p);
      assert Catalogued(objs) == c + (if StartsWith(t, Namespace) then [t] else []);
      UniqueAppend(c, t);
      InUnique(c, t);
      var st := Scan(p, calls[..n]);
      StepShape(st, objs[n], calls[n]);
      assert Scan(objs, calls) == Step(st, objs[n], calls[n]);
      if t !in st.types.entries && StartsWith(t, Namespace) {
        assert Catalogued(objs) == c + [t];
        assert Unique(c + [t]) == Unique(c) + [t];
      } else {
        assert Scan(objs, calls) == st;
        if StartsWith(t, Namespace) {
          assert Catalogued(objs) == c + [t];
          assert t in c;
          assert Unique(c + [t]) == Unique(c);
        } else {
          assert Catalogued(objs) == c;
        }
      }
    }
  }

  /** Object `i` is a first object exactly when the scan has not catalogued its type yet. */
  lemma FirstIsNew(objs: seq<ModelObject>, calls: seq<Outcome>, i: nat)
    requires |calls| == |objs| && i < |objs|
    ensures IsFirst(objs, i) <==>
      objs[i].objectType !in Scan(objs[..i], calls[..i]).types.entries && StartsWith(objs[i].objectType, Namespace)
  {
    var p, t := objs[..i], objs[i].objectType;
    ScanKeys(p, calls[..i]);
    InUnique(Catalogued(p), t);
    assert t in TypesOf(p) <==> exists j :: 0 <= j < i && objs[j].objectType == t by {
      if t in TypesOf(p) {
        var j :| 0 <= j < |p| && TypesOf(p)[j] == t;
        assert objs[j].objectType == t;
      }
      if exists j :: 0 <= j < i && objs[j].objectType == t {
        var j :| 0 <= j < i && objs[j].objectType == t;
        assert TypesOf(p)[j] == t;
      }
    }
  }

  /** A later object of a catalogued type, or an object of another namespace, changes nothing. */
  lemma LaterObjectIgnored(objs: seq<ModelObject>, calls: seq<Outcome>, i: nat)
    requires |calls| == |objs| && i < |objs| && !IsFirst(objs, i)
    ensures Scan(objs[..i + 1], calls[..i + 1]) == Scan(objs[..i], calls[..i])
  {
    ScanPrefix(objs, calls, i);
    FirstIsNew(objs, calls, i);
  }

  /**
   * The first object of an "OS:" type appends that type to both
   * dictionaries, with its own handle and the method list its accessor
   * gives, and touches no other entry.
   */
  lemma FirstObjectCatalogued(objs: seq<ModelObject>, calls: seq<Outcome>, i: nat)
    requires |calls| == |objs| && i < |objs| && IsFirst(objs, i)
    ensures var before, after := Scan(objs[..i], calls[..i]), Scan(objs[..i + 1], calls[..i + 1]);
      var t, view := objs[i].objectType, Introspect(calls[i], objs[i].members, before.specific);
      && after.types.keys == before.types.keys + [t]
      && after.handles.keys == before.handles.keys + [t]
      && after.types.entries == before.types.entries[t := view.methods]
      && after.handles.entries == before.handles.entries[t := objs[i].handle]
      && after.specific == view.specific
  {
    ScanPrefix(objs, calls, i);
    FirstIsNew(objs, calls, i);
    ScanKeys(objs[..i], calls[..i]);
    StepShape(Scan(objs[..i], calls[..i]), objs[i], calls[i]);
  }

  /** One iteration never changes an entry that is already there. */
  lemma StepKeeps(st: ScanState, o: ModelObject, call: Outcome, t: string)
    requires Valid(st.types) && Valid(st.handles) && st.types.keys == st.handles.keys
    ensures t in st.types.entries ==>
      t in Step(st, o, call).types.entries && Step(st, o, call).types.entries[t] == st.types.entries[t]
    ensures t in st.handles.entries ==>
      t in Step(st, o, call).handles.entries && Step(st, o, call).handles.entries[t] == st.handles.entries[t]
  {
    StepShape(st, o, call);
    var u := o.objectType;
    if u !in st.types.entries && StartsWith(u, Namespace) {
      assert u !in st.handles.entries;
    }
  }

  /** Later iterations never change an entry once it is made. */
  lemma {:induction false} EntriesStable(objs: seq<ModelObject>, calls: seq<Outcome>, n: nat, t: string)
    requires |calls| == |objs| && n <= |objs|
    ensures var before, after := Scan(objs[..n], calls[..n]), Scan(objs, calls);
      && (t in before.types.entries ==> t in after.types.entries && after.types.entries[t] == before.types.entries[t])
      && (t in before.handles.entries ==> t in after.handles.entries && after.handles.entries[t] == before.handles.entries[t])
    decreases |objs| - n
  {
    if n < |objs| {
      EntriesStable(objs, calls, n + 1, t);
      ScanPrefix(objs, calls, n);
      ScanKeys(objs[..n], calls[..n]);
      StepKeeps(Scan(objs[..n], calls[..n]), objs[n], calls[n], t);
    } else {
      assert objs[..n] == objs && calls[..n] == calls;
    }
  }

  /** Every first object's handle is recorded as its type's sample handle. */
  lemma FirstHandle(objs: seq<ModelObject>, calls: seq<Outcome>, i: nat)
    requires |calls| == |objs| && i < |objs| && IsFirst(objs, i)
    ensures objs[i].objectType in Scan(objs, calls).handles.entries
    ensures Scan(objs, calls).handles.entries[objs[i].objectType] == objs[i].handle
  {
    FirstObjectCatalogued(objs, calls, i);
    EntriesStable(objs, calls, i + 1, objs[i].objectType);
  }

  /** Every sample handle belongs to the first object of its type. */
  lemma HandleOfFirst(objs: seq<ModelObject>, calls: seq<Outcome>, t: string)
    requires |calls| == |objs| && t in Scan(objs, calls).handles.entries
    ensures t in TypesOf(objs)
    ensures IsFirst(objs, FirstIndex(TypesOf(objs), t))
    ensures Scan(objs, calls).handles.entries[t] == objs[FirstIndex(TypesOf(objs), t)].handle
  {
    ScanKeys(objs, calls);
    InUnique(Catalogued(objs), t);
    var i := FirstIndex(TypesOf(objs), t);
    assert objs[i].objectType == t;
    FirstHandle(objs, calls, i);
  }

  /** The methods stored for a type are those its first object's accessor call gave at that point. */
  lemma CatalogEntry(objs: seq<ModelObject>, calls: seq<Outcome>, i: nat)
    requires |calls| == |objs| && i < |objs| && IsFirst(objs, i)
    ensures objs[i].objectType in Scan(objs, calls).types.entries
    ensures Scan(objs, calls).types.entries[objs[i].objectType]
      == Introspect(calls[i], objs[i].members, Scan(objs[..i], calls[..i]).specific).methods
  {
    FirstObjectCatalogued(objs, calls, i);
    EntriesStable(objs, calls, i + 1, objs[i].objectType);
  }

  /**
   * The catalogued method list of a first object, case by case: a raising
   * call gives exactly the error entry; a non-optional result gives the
   * generic object's public methods; a present optional the unwrapped
   * object's; an absent one those of the object bound earlier, or the error
   * entry when none is bound.
   */
  lemma AccessorOutcomes(objs: seq<ModelObject>, calls: seq<Outcome>, i: nat)
    requires |calls| == |objs| && i < |objs| && IsFirst(objs, i)
    ensures objs[i].objectType in Scan(objs, calls).types.entries
    ensures var methods := Scan(objs, calls).types.entries[objs[i].objectType];
      match calls[i]
      case Raises(message) => methods == [ErrorPrefix + message]
      case NotOptional => methods == PublicMethods(objs[i].members)
      case Present(members) => methods == PublicMethods(members)
      case Absent =>
        match Scan(objs[..i], calls[..i]).specific
        case Some(bound) => methods == PublicMethods(bound)
        case None => methods == [ErrorPrefix + UnboundSpecific]
  {
    CatalogEntry(objs, calls, i);
  }

  /** A first object whose generic object lacks the derived accessor gets the AttributeError entry. */
  lemma MissingAccessor(objs: seq<ModelObject>, i: nat)
    requires i < |objs| && IsFirst(objs, i) && AccessorName(objs[i].objectType) !in objs[i].accessors
    ensures objs[i].objectType in Scan(objs, Calls(objs)).types.entries
    ensures Scan(objs, Calls(objs)).types.entries[objs[i].objectType]
      == [ErrorPrefix + MissingAttribute(AccessorName(objs[i].objectType))]
  {
    var calls := Calls(objs);
    assert calls[i] == Raises(MissingAttribute(AccessorName(objs[i].objectType)));
    CatalogEntry(objs, calls, i);
  }

  /** The outcome rebinds `specific_obj`. */
  predicate Rebinds(call: Outcome) {
    call.NotOptional? || call.Present?
  }

  /** What a rebinding outcome binds `specific_obj` to. */
  function BoundView(call: Outcome, generic: seq<Member>): seq<Member>
    requires Rebinds(call)
  {
    if call.Present? then call.members else generic
  }

  /** Only a first object with a rebinding outcome changes what `specific_obj` is bound to. */
  lemma SpecificStep(st: ScanState, o: ModelObject, call: Outcome)
    requires Valid(st.types) && Valid(st.handles)
    ensures Step(st, o, call).specific ==
      if o.objectType !in st.types.entries && StartsWith(o.objectType, Namespace) && Rebinds(call)
      then Some(BoundView(call, o.members)) else st.specific
  {
  }

  /** Being a first object depends only on the objects up to it. */
  lemma IsFirstPrefix(objs: seq<ModelObject>, m: nat, j: nat)
    requires j < m <= |objs|
    ensures IsFirst(objs[..m], j) == IsFirst(objs, j)
  {
    assert forall k :: 0 <= k <= j ==> objs[..m][k] == objs[k];
  }

  /** What object `k` binds `specific_obj` to, if it rebinds it at all. */
  function Rebinding(objs: seq<ModelObject>, calls: seq<Outcome>, k: nat): Option<seq<Member>>
    requires |calls| == |objs| && k < |objs|
  {
    if IsFirst(objs, k) && Rebinds(calls[k]) then Some(BoundView(calls[k], objs[k].members)) else None
  }

  function Rebindings(objs: seq<ModelObject>, calls: seq<Outcome>): (r: seq<Option<seq<Member>>>)
    requires |calls| == |objs|
    ensures |r| == |objs|
    ensures forall k :: 0 <= k < |objs| ==> r[k] == Rebinding(objs, calls, k)
  {
    seq(|objs|, k requires 0 <= k < |objs| => Rebinding(objs, calls, k))
  }

  lemma RebindingsPrefix(objs: seq<ModelObject>, calls: seq<Outcome>)
    requires |calls| == |objs| && objs != []
    ensures var n := |objs| - 1;
      Rebindings(objs, calls) == Rebindings(objs[..n], calls[..n]) + [Rebinding(objs, calls, n)]
  {
    var n := |objs| - 1;
    forall k | 0 <= k < n ensures Rebindings(objs[..n], calls[..n])[k] == Rebindings(objs, calls)[k] {
      IsFirstPrefix(objs, n, k);
    }
  }

  /** The scan leaves `specific_obj` bound as the latest rebinding first object left it. */
  lemma {:induction false} ScanSpecific(objs: seq<ModelObject>, calls: seq<Outcome>)
    requires |calls| == |objs|
    ensures Scan(objs, calls).specific == LastSome(Rebindings(objs, calls))
    decreases |objs|
  {
    if objs != [] {
      var n := |objs| - 1;
      ScanSpecific(objs[..n], calls[..n]);
      ScanPrefix(objs, calls, n);
      assert objs[..n + 1] == objs && calls[..n + 1] == calls;
      FirstIsNew(objs, calls, n);
      SpecificStep(Scan(objs[..n], calls[..n]), objs[n], calls[n]);
      RebindingsPrefix(objs, calls);
      assert Rebindings(objs, calls)[n] == Rebinding(objs, calls, n);
    }
  }

  /**
   * The latest rebinding is absent exactly when no first object had a
   * rebinding outcome; otherwise it is the view of the latest one that did.
   */
  lemma LatestRebinding(objs: seq<ModelObject>, calls: seq<Outcome>)
    requires |calls| == |objs|
    ensures LastSome(Rebindings(objs, calls)).None? <==>
      forall j :: 0 <= j < |objs| ==> Rebinding(objs, calls, j).None?
    ensures LastSome(Rebindings(objs, calls)).Some? ==>
      exists j :: (0 <= j < |objs| && IsFirst(objs, j) && Rebinds(calls[j])
        && LastSome(Rebindings(objs, calls)).value == BoundView(calls[j], objs[j].members)
        && forall k :: j < k < |objs| ==> Rebinding(objs, calls, k).None?)
  {
    var r := Rebindings(objs, calls);
    LastSomeIsLast(r);
    if LastSome(r).Some? {
      var j :| 0 <= j < |r| && r[j] == LastSome(r) && forall k :: j < k < |r| ==> r[k].None?;
      assert Rebinding(objs, calls, j).Some?;
    }
  }

  /**
   * `specific_obj` is unbound exactly when no first object so far had a
   * rebinding outcome; otherwise it is the view of the latest one that did.
   */
  lemma SpecificObject(objs: seq<ModelObject>, calls: seq<Outcome>)
    requires |calls| == |objs|
    ensures Scan(objs, calls).specific.None? <==>
      forall j :: 0 <= j < |objs| ==> Rebinding(objs, calls, j).None?
    ensures Scan(objs, calls).specific.Some? ==>
      exists j :: (0 <= j < |objs| && IsFirst(objs, j) && Rebinds(calls[j])
        && Scan(objs, calls).specific.value == BoundView(calls[j], objs[j].members)
        && forall k :: j < k < |objs| ==> Rebinding(objs, calls, k).None?)
  {
    ScanSpecific(objs, calls);
    LatestRebinding(objs, calls);
  }

  /** `getattr(obj_, dynamic_method_name)()` (line 86). */
  method CallNamedAccessor(o: ModelObject, dynamicMethodName: string) returns (outcome: Outcome)
    ensures outcome == Lookup(o, dynamicMethodName)
  {
    if dynamicMethodName in o.accessors {
      outcome := o.accessors[dynamicMethodName];
    } else {
      outcome := Raises(MissingAttribute(dynamicMethodName));
    }
  }

  /**
   * The two nested `try` blocks of one first object (lines 85-102): the
   * method list to store and what `specific_obj` is bound to afterwards.
   */
  method IntrospectObject(outcome: Outcome, generic: seq<Member>, specific: Option<seq<Member>>)
    returns (methods: seq<string>, bound: Option<seq<Member>>)
    ensures Introspected(methods, bound) == Introspect(outcome, generic, specific)
  {
    bound := specific;
    match outcome {
      case Raises(message) =>
        methods := [ErrorPrefix + message];
      case NotOptional =>
        bound := Some(generic);
        methods := PublicMethods(bound.value);
      case Present(members) =>
        bound := Some(members);
        methods := PublicMethods(bound.value);
      case Absent =>
        if bound.Some? {
          methods := PublicMethods(bound.value);
        } else {
          methods := [ErrorPrefix + UnboundSpecific];
        }
    }
  }

  /** What the scan guarantees about the two dictionaries it returns. */
  lemma ScanResult(objs: seq<ModelObject>, calls: seq<Outcome>)
    requires |calls| == |objs|
    ensures Scan(objs, calls).handles.keys == Scan(objs, calls).types.keys
    ensures Scan(objs, calls).types.keys == Unique(Catalogued(objs))
    ensures forall i :: 0 <= i < |objs| && IsFirst(objs, i) ==>
      objs[i].objectType in Scan(objs, calls).handles.entries
      && Scan(objs, calls).handles.entries[objs[i].objectType] == objs[i].handle
  {
    ScanKeys(objs, calls);
    forall i | 0 <= i < |objs| && IsFirst(objs, i)
      ensures objs[i].objectType in Scan(objs, calls).handles.entries
      ensures Scan(objs, calls).handles.entries[objs[i].objectType] == objs[i].handle
    {
      FirstHandle(objs, calls, i);
    }
  }

  /**
   * One pass of the scan loop's body (lines 76-102) over the dictionaries
   * and `specific_obj`, given the accessor name derived for the object.
   */
  method VisitObject(types: Dict<string, seq<string>>, handles: Dict<string, Handle>,
                     specific: Option<seq<Member>>, o: ModelObject, dynamicMethodName: string)
    returns (types': Dict<string, seq<string>>, handles': Dict<string, Handle>, specific': Option<seq<Member>>)
    requires Valid(types) && Valid(handles)
    ensures ScanState(types', handles', specific')
      == Step(ScanState(types, handles, specific), o, Lookup(o, dynamicMethodName))
  {
    types', handles', specific' := types, handles, specific;
    var objClass, objHandle := o.objectType, o.handle;
    if objClass !in types.entries && StartsWith(objClass, Namespace) {
      if objClass !in handles.entries {
        handles' := Put(handles, objClass, objHandle);
      }
      types' := Put(types, objClass, []);
      var outcome := CallNamedAccessor(o, dynamicMethodName);
      var methods;
      methods, specific' := IntrospectObject(outcome, o.members, specific);
      types' := Put(types', objClass, methods);
    }
  }

  /**
   * The scan loop of `process_model_objects` (lines 72-105): returns the
   * catalogue and the sample handles, and the processed-object counts the
   * progress bar is given, one per object.
   */
  method CollectObjectTypes(objs: seq<ModelObject>)
    returns (types: Dict<string, seq<string>>, handles: Dict<string, Handle>, progress: seq<nat>)
    ensures types == Scan(objs, Calls(objs)).types && handles == Scan(objs, Calls(objs)).handles
    ensures Valid(types) && Valid(handles) && handles.keys == types.keys
    ensures types.keys == Unique(Catalogued(objs))
    ensures |progress| == |objs| && forall k :: 0 <= k < |objs| ==> progress[k] == k + 1
  {
    types, handles := Empty(), Empty();
    var specific: Option<seq<Member>> := None;
    var processedCount := 0;
    progress := [];
    ghost var calls := Calls(objs);
    for i := 0 to |objs|
      invariant ScanState(types, handles, specific) == Scan(objs[..i], calls[..i])
      invariant processedCount == i && |progress| == i
      invariant forall k :: 0 <= k < i ==> progress[k] == k + 1
    {
      ScanPrefix(objs, calls, i);
      var dynamicMethodName := AccessorName(objs[i].objectType);
      types, handles, specific := VisitObject(types, handles, specific, objs[i], dynamicMethodName);
      processedCount := processedCount + 1;
      progress := progress + [processedCount];
    }
    assert objs[..|objs|] == objs && calls[..|objs|] == calls;
    ScanKeys(objs, calls);
  }
}
