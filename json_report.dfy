/**
 * The report generator of task 3: the tests document is decoded with an
 * object hook that, at every JSON object, fills the join key ("value") from a
 * lookup table keyed by the object's on key ("id"). The lookup table is built
 * from the "values" list of a second document.
 *
 * Decoding from text is not modelled: both documents arrive already parsed,
 * and `Load` replays what the decoder does with the hook, bottom-up.
 */
module JsonReport {
  import opened Wrappers

  /** A parsed JSON value (RFC 8259, section 3). Numbers are exact reals, so the
      integer 1 and the float 1.0 compare equal, as they do once decoded.
      Object members are keyed by name; their order is not modelled. */
  datatype Json =
    | Null
    | Bool(b: bool)
    | Num(n: real)
    | Str(s: string)
    | Arr(items: seq<Json>)
    | Obj(fields: map<string, Json>)
  {
    /** Whether the decoded value can be a dictionary key: lists and
        dictionaries cannot (using one raises TypeError). */
    predicate Hashable() {
      !Arr? && !Obj?
    }
  }

  /** The exceptions the report run can raise before a report is written. */
  datatype Error = KeyError | TypeError

  /** What the closure returned by `join_dict_hook` captures. */
  datatype JoinHook = JoinHook(joinKey: string, onKey: string, target: map<Json, Json>)

  /** The on key is present, its value can be looked up, and it is in the table. */
  predicate Matches(h: JoinHook, fields: map<string, Json>) {
    h.onKey in fields && fields[h.onKey].Hashable() && fields[h.onKey] in h.target
  }

  /** `_hook`: applied to one decoded object, whose members are already decoded. */
  function Hook(h: JoinHook, fields: map<string, Json>): (r: Result<map<string, Json>, Error>)
    ensures r.Err? <==> h.onKey in fields && !fields[h.onKey].Hashable()
    ensures r.Err? ==> r.error == TypeError
    ensures r.Ok? && Matches(h, fields) ==>
      h.joinKey in r.value && r.value[h.joinKey] == h.target[fields[h.onKey]]
    ensures r.Ok? && !Matches(h, fields) ==> r.value == fields
    ensures r.Ok? ==> r.value.Keys == fields.Keys + (if Matches(h, fields) then {h.joinKey} else {})
    ensures r.Ok? ==> forall k :: k in fields && k != h.joinKey ==> r.value[k] == fields[k]
  {
    if h.onKey in fields then
      var idx := fields[h.onKey];
      if !idx.Hashable() then Err(TypeError)
      else if idx in h.target then Ok(fields[h.joinKey := h.target[idx]])
      else Ok(fields)
    else
      Ok(fields)
  }

  /** Applying the hook to its own output changes nothing more, provided the
      substituted key is not the key the lookup reads. */
  lemma HookIdempotent(h: JoinHook, fields: map<string, Json>)
    requires h.onKey != h.joinKey
    requires Hook(h, fields).Ok?
    ensures Hook(h, Hook(h, fields).value) == Hook(h, fields)
  {
    var once := Hook(h, fields).value;
    if Matches(h, fields) {
      assert once[h.onKey] == fields[h.onKey];
      assert Matches(h, once);
      var twice := Hook(h, once).value;
      assert twice.Keys == once.Keys;
      assert forall k :: k in once ==> twice[k] == once[k];
      assert twice == once;
    }
  }

  /** The decoded values of a list of results, once none of them failed. */
  function OkValues(rs: seq<Result<Json, Error>>): (vs: seq<Json>)
    requires forall i :: 0 <= i < |rs| ==> rs[i].Ok?
    ensures |vs| == |rs| && forall i :: 0 <= i < |rs| ==> rs[i] == Ok(vs[i])
  {
    seq(|rs|, i requires 0 <= i < |rs| => rs[i].value)
  }

  /**
   * `json.loads(text, object_hook=hook)` on a document that decodes to `doc`:
   * every object's members are decoded first, then the hook replaces the
   * object. The first TypeError raised by the hook aborts the whole load.
   */
  function Load(h: JoinHook, doc: Json): (r: Result<Json, Error>)
    decreases doc
    ensures r.Err? ==> r.error == TypeError
    ensures doc.Hashable() ==> r == Ok(doc)
    ensures r.Ok? ==> r.value.Arr? == doc.Arr? && r.value.Obj? == doc.Obj?
  {
    match doc
    case Arr(items) =>
      var rs := seq(|items|, i requires 0 <= i < |items| => Load(h, items[i]));
      if exists i :: 0 <= i < |rs| && rs[i].Err? then Err(TypeError)
      else Ok(Arr(OkValues(rs)))
    case Obj(fields) =>
      var rs := map k | k in fields :: Load(h, fields[k]);
      if exists k :: k in rs && rs[k].Err? then Err(TypeError)
      else
        (match Hook(h, map k | k in rs :: rs[k].value)
         case Ok(obj) => Ok(Obj(obj))
         case Err(e) => Err(e))
    case _ => Ok(doc)
  }

  /** No object in `doc` holds a list or an object under the on key, so the
      hook never tries to look one up. */
  ghost predicate IdsHashable(onKey: string, doc: Json)
    decreases doc
  {
    match doc
    case Arr(items) => forall i :: 0 <= i < |items| ==> IdsHashable(onKey, items[i])
    case Obj(fields) =>
      && (onKey in fields ==> fields[onKey].Hashable())
      && forall k :: k in fields ==> IdsHashable(onKey, fields[k])
    case _ => true
  }

  /** One level of `Load` on a list: each element is loaded on its own, in order. */
  lemma LoadArrStep(h: JoinHook, items: seq<Json>)
    ensures Load(h, Arr(items)).Ok? <==> forall i :: 0 <= i < |items| ==> Load(h, items[i]).Ok?
    ensures Load(h, Arr(items)).Ok? ==>
      && Load(h, Arr(items)).value.Arr?
      && |Load(h, Arr(items)).value.items| == |items|
      && forall i :: 0 <= i < |items| ==> Load(h, items[i]) == Ok(Load(h, Arr(items)).value.items[i])
  {
    var rs := seq(|items|, i requires 0 <= i < |items| => Load(h, items[i]));
    assert forall i :: 0 <= i < |items| ==> rs[i] == Load(h, items[i]);
  }

  /** One level of `Load` on an object: each member is loaded on its own, then
      the hook runs on the result, deciding on the member under the on key as
      it was before loading (loading leaves a scalar unchanged). */
  lemma LoadObjStep(h: JoinHook, fields: map<string, Json>)
    ensures Load(h, Obj(fields)).Ok? <==>
      && (forall k :: k in fields ==> Load(h, fields[k]).Ok?)
      && (h.onKey in fields ==> fields[h.onKey].Hashable())
    ensures Load(h, Obj(fields)).Ok? ==>
      var out := Load(h, Obj(fields)).value;
      && out.Obj?
      && out.fields.Keys == fields.Keys + (if Matches(h, fields) then {h.joinKey} else {})
      && (Matches(h, fields) ==> out.fields[h.joinKey] == h.target[fields[h.onKey]])
      && forall k :: k in fields && !(k == h.joinKey && Matches(h, fields)) ==>
           Load(h, fields[k]) == Ok(out.fields[k])
  {
    var rs := map k | k in fields :: Load(h, fields[k]);
    if forall k :: k in fields ==> Load(h, fields[k]).Ok? {
      assert !exists k :: k in rs && rs[k].Err?;
      var loaded := map k | k in rs :: rs[k].value;
      assert Load(h, Obj(fields)) ==
        match Hook(h, loaded)
        case Ok(obj) => Ok(Obj(obj))
        case Err(e) => Err(e);
      if h.onKey in fields {
        assert Load(h, fields[h.onKey]) == Ok(loaded[h.onKey]);
        if fields[h.onKey].Hashable() {
          assert loaded[h.onKey] == fields[h.onKey];
        }
      }
      assert Matches(h, loaded) == Matches(h, fields);
    } else {
      var k :| k in fields && !Load(h, fields[k]).Ok?;
      assert rs[k].Err?;
    }
  }

  /** The hook raises exactly when some object, at any depth, holds a list or
      an object under the on key. */
  lemma {:induction false} LoadOkIff(h: JoinHook, doc: Json)
    ensures Load(h, doc).Ok? <==> IdsHashable(h.onKey, doc)
    decreases doc
  {
    match doc
    case Arr(items) =>
      forall i | 0 <= i < |items|
        ensures Load(h, items[i]).Ok? <==> IdsHashable(h.onKey, items[i])
      {
        LoadOkIff(h, items[i]);
      }
      LoadArrStep(h, items);
    case Obj(fields) =>
      forall k | k in fields
        ensures Load(h, fields[k]).Ok? <==> IdsHashable(h.onKey, fields[k])
      {
        LoadOkIff(h, fields[k]);
      }
      LoadObjStep(h, fields);
    case _ =>
  }

  /**
   * A reference definition of the report, read off the input alone: every
   * object whose on-key value is in the table has its join key set to the
   * table's value, which is then left as it is; every other member, list
   * element and scalar is the rewritten counterpart of the input's.
   */
  ghost predicate Rewritten(h: JoinHook, doc: Json, out: Json)
    decreases doc
  {
    match doc
    case Arr(items) =>
      && out.Arr?
      && |out.items| == |items|
      && forall i :: 0 <= i < |items| ==> Rewritten(h, items[i], out.items[i])
    case Obj(fields) =>
      && out.Obj?
      && out.fields.Keys == fields.Keys + (if Matches(h, fields) then {h.joinKey} else {})
      && (Matches(h, fields) ==> out.fields[h.joinKey] == h.target[fields[h.onKey]])
      && forall k :: k in fields && !(k == h.joinKey && Matches(h, fields)) ==>
           Rewritten(h, fields[k], out.fields[k])
    case _ => out == doc
  }

  /** A successful load produces the rewritten document. */
  lemma {:induction false} LoadMeetsSpec(h: JoinHook, doc: Json)
    requires Load(h, doc).Ok?
    ensures Rewritten(h, doc, Load(h, doc).value)
    decreases doc
  {
    match doc
    case Arr(items) =>
      LoadArrStep(h, items);
      forall i | 0 <= i < |items|
        ensures Rewritten(h, items[i], Load(h, doc).value.items[i])
      {
        LoadMeetsSpec(h, items[i]);
      }
    case Obj(fields) =>
      LoadObjStep(h, fields);
      var out := Load(h, doc).value;
      forall k | k in fields && !(k == h.joinKey && Matches(h, fields))
        ensures Rewritten(h, fields[k], out.fields[k])
      {
        LoadMeetsSpec(h, fields[k]);
      }
    case _ =>
  }

  /** The reference definition determines the report: there is one rewritten
      document per input. */
  lemma {:induction false} RewrittenUnique(h: JoinHook, doc: Json, a: Json, b: Json)
    requires Rewritten(h, doc, a) && Rewritten(h, doc, b)
    ensures a == b
    decreases doc
  {
    match doc
    case Arr(items) =>
      forall i | 0 <= i < |items| ensures a.items[i] == b.items[i] {
        RewrittenUnique(h, items[i], a.items[i], b.items[i]);
      }
      assert a.items == b.items;
    case Obj(fields) =>
      forall k | k in a.fields ensures a.fields[k] == b.fields[k] {
        if !(k == h.joinKey && Matches(h, fields)) {
          RewrittenUnique(h, fields[k], a.fields[k], b.fields[k]);
        }
      }
      assert a.fields == b.fields;
    case _ =>
  }

  /** Loading succeeds with `out` exactly when no on key holds a list or an
      object and `out` is the rewritten document. */
  lemma LoadCharacterised(h: JoinHook, doc: Json, out: Json)
    ensures Load(h, doc) == Ok(out) <==> IdsHashable(h.onKey, doc) && Rewritten(h, doc, out)
  {
    LoadOkIff(h, doc);
    if Load(h, doc).Ok? {
      LoadMeetsSpec(h, doc);
      if Rewritten(h, doc, out) {
        RewrittenUnique(h, doc, out, Load(h, doc).value);
      }
    }
  }

  /** One step into a document: a list index or an object member name. */
  datatype Step = Index(i: nat) | Key(k: string)

  /** The node reached from `doc` by following `path`, if there is one. */
  function At(doc: Json, path: seq<Step>): Option<Json>
    decreases |path|
  {
    if path == [] then Some(doc)
    else match path[0]
      case Index(i) => if doc.Arr? && i < |doc.items| then At(doc.items[i], path[1..]) else None
      case Key(k) => if doc.Obj? && k in doc.fields then At(doc.fields[k], path[1..]) else None
  }

  /** `path` leads to a node of `doc` without passing through a join key that
      the hook overwrites (what was below such a key is gone from the report). */
  ghost predicate Kept(h: JoinHook, doc: Json, path: seq<Step>)
    decreases |path|
  {
    if path == [] then true
    else match path[0]
      case Index(i) => doc.Arr? && i < |doc.items| && Kept(h, doc.items[i], path[1..])
      case Key(k) =>
        && doc.Obj? && k in doc.fields
        && !(k == h.joinKey && Matches(h, doc.fields))
        && Kept(h, doc.fields[k], path[1..])
  }

  /** Depth independence: the report holds, at every kept path, what loading
      the input's node at that path on its own would give. */
  lemma {:induction false} LoadAt(h: JoinHook, doc: Json, out: Json, path: seq<Step>)
    requires Load(h, doc) == Ok(out)
    requires Kept(h, doc, path)
    ensures At(doc, path).Some? && At(out, path).Some?
    ensures Load(h, At(doc, path).value) == Ok(At(out, path).value)
    decreases |path|
  {
    if path != [] {
      match path[0]
      case Index(i) =>
        LoadArrStep(h, doc.items);
        LoadAt(h, doc.items[i], out.items[i], path[1..]);
      case Key(k) =>
        LoadObjStep(h, doc.fields);
        LoadAt(h, doc.fields[k], out.fields[k], path[1..]);
    }
  }

  /** Substitution at any depth: an object reached by a kept path whose id is in
      the table carries the table's value under the join key in the report. */
  lemma SubstitutedAtDepth(h: JoinHook, doc: Json, out: Json, path: seq<Step>)
    requires Load(h, doc) == Ok(out)
    requires Kept(h, doc, path)
    requires At(doc, path).Some? && At(doc, path).value.Obj?
    requires Matches(h, At(doc, path).value.fields)
    ensures At(out, path).Some? && At(out, path).value.Obj?
    ensures h.joinKey in At(out, path).value.fields
    ensures var id := At(doc, path).value.fields[h.onKey];
      At(out, path).value.fields[h.joinKey] == h.target[id]
  {
    LoadAt(h, doc, out, path);
    var fields := At(doc, path).value.fields;
    LoadObjStep(h, fields);
    assert Load(h, Obj(fields)) == Ok(At(out, path).value);
  }

  /** What `LoadIdempotent` asks of the hook and the table. */
  ghost predicate Reloadable(h: JoinHook) {
    && h.onKey != h.joinKey
    && forall v :: v in h.target.Values ==> IdsHashable(h.onKey, v)
  }

  /** `LoadIdempotent` for a list, given it for the list's elements. */
  lemma LoadIdempotentArr(h: JoinHook, items: seq<Json>)
    requires Load(h, Arr(items)).Ok?
    requires forall i :: 0 <= i < |items| && Load(h, items[i]).Ok? ==>
      Load(h, Load(h, items[i]).value) == Load(h, items[i])
    ensures Load(h, Load(h, Arr(items)).value) == Load(h, Arr(items))
  {
    var out := Load(h, Arr(items)).value;
    LoadArrStep(h, items);
    LoadArrStep(h, out.items);
    assert Load(h, out).value.items == out.items;
  }

  /** `LoadIdempotent` for an object, given it for the object's members. */
  lemma LoadIdempotentObj(h: JoinHook, fields: map<string, Json>)
    requires Reloadable(h)
    requires Load(h, Obj(fields)).Ok?
    requires forall k :: k in fields && Load(h, fields[k]).Ok? ==>
      Load(h, Load(h, fields[k]).value) == Load(h, fields[k])
    ensures Load(h, Load(h, Obj(fields)).value) == Load(h, Obj(fields))
  {
    var out := Load(h, Obj(fields)).value;
    LoadObjStep(h, fields);
    forall k | k in out.fields ensures Load(h, out.fields[k]).Ok? {
      if k == h.joinKey && Matches(h, fields) {
        assert out.fields[k] in h.target.Values;
        LoadOkIff(h, out.fields[k]);
      }
    }
    if h.onKey in fields {
      assert out.fields[h.onKey] == fields[h.onKey];
    }
    LoadObjStep(h, out.fields);
    assert Matches(h, out.fields) == Matches(h, fields);
    var again := Load(h, out).value;
    assert again.fields == out.fields;
  }

  /** Loading the report again with the same hook gives the same report, when
      the join key differs from the on key and every table value loads. */
  lemma {:induction false} LoadIdempotent(h: JoinHook, doc: Json)
    requires Reloadable(h)
    requires Load(h, doc).Ok?
    ensures Load(h, Load(h, doc).value) == Load(h, doc)
    decreases doc
  {
    match doc
    case Arr(items) =>
      LoadArrStep(h, items);
      forall i | 0 <= i < |items| && Load(h, items[i]).Ok?
        ensures Load(h, Load(h, items[i]).value) == Load(h, items[i])
      {
        LoadIdempotent(h, items[i]);
      }
      LoadIdempotentArr(h, items);
    case Obj(fields) =>
      LoadObjStep(h, fields);
      forall k | k in fields && Load(h, fields[k]).Ok?
        ensures Load(h, Load(h, fields[k]).value) == Load(h, fields[k])
      {
        LoadIdempotent(h, fields[k]);
      }
      LoadIdempotentObj(h, fields);
    case _ =>
  }

  /** An empty table leaves every document it can load unchanged. */
  lemma {:induction false} EmptyTargetIdentity(h: JoinHook, doc: Json)
    requires h.target == map[]
    requires IdsHashable(h.onKey, doc)
    ensures Load(h, doc) == Ok(doc)
    decreases doc
  {
    LoadOkIff(h, doc);
    match doc
    case Arr(items) =>
      LoadArrStep(h, items);
      forall i | 0 <= i < |items| ensures Load(h, items[i]) == Ok(items[i]) {
        EmptyTargetIdentity(h, items[i]);
      }
      assert Load(h, doc).value.items == items;
    case Obj(fields) =>
      LoadObjStep(h, fields);
      forall k | k in fields ensures Load(h, fields[k]) == Ok(fields[k]) {
        EmptyTargetIdentity(h, fields[k]);
      }
      assert Load(h, doc).value.fields == fields;
    case _ =>
  }

  /** A "values" entry the comprehension can read: an object holding an "id"
      that can be a dictionary key, and a "value". */
  predicate WellFormedEntry(e: Json) {
    e.Obj? && "id" in e.fields && "value" in e.fields && e.fields["id"].Hashable()
  }

  function IdOf(e: Json): Json
    requires WellFormedEntry(e)
  {
    e.fields["id"]
  }

  function ValueOf(e: Json): Json
    requires WellFormedEntry(e)
  {
    e.fields["value"]
  }

  /** What reading a malformed entry raises. `data["id"]` is evaluated first
      (TypeError on a non-object, KeyError if absent), then `data["value"]`
      (KeyError if absent), then the id is hashed on insertion (TypeError). */
  function EntryError(e: Json): Error
    requires !WellFormedEntry(e)
  {
    if !e.Obj? then TypeError
    else if "id" !in e.fields || "value" !in e.fields then KeyError
    else TypeError
  }

  /** No entry after `i` has the id of entry `i`. */
  predicate LastWithId(entries: seq<Json>, i: nat)
    requires i < |entries|
    requires forall j :: 0 <= j < |entries| ==> WellFormedEntry(entries[j])
  {
    forall j :: i < j < |entries| ==> IdOf(entries[j]) != IdOf(entries[i])
  }

  /**
   * `{data["id"]: data["value"] for data in entries}`: entries are read in
   * order and the first malformed one raises.
   */
  function LookupFromEntries(entries: seq<Json>): (r: Result<map<Json, Json>, Error>)
    decreases |entries|
    ensures r.Ok? <==> forall i :: 0 <= i < |entries| ==> WellFormedEntry(entries[i])
    ensures r.Err? ==> exists i :: (
      && 0 <= i < |entries| && !WellFormedEntry(entries[i])
      && (forall j :: 0 <= j < i ==> WellFormedEntry(entries[j]))
      && r.error == EntryError(entries[i]))
  {
    if |entries| == 0 then Ok(map[])
    else
      var n := |entries| - 1;
      var front := entries[..n];
      assert forall i :: 0 <= i < n ==> front[i] == entries[i];
      match LookupFromEntries(front)
      case Err(e) => Err(e)
      case Ok(m) =>
        var last := entries[n];
        if !WellFormedEntry(last) then Err(EntryError(last))
        else Ok(m[IdOf(last) := ValueOf(last)])
  }

  /** The table after the last entry is the table of the ones before it with
      the last entry's id set to its value. */
  lemma LookupStep(entries: seq<Json>)
    requires |entries| > 0
    requires LookupFromEntries(entries).Ok?
    ensures var n := |entries| - 1;
      && LookupFromEntries(entries[..n]).Ok?
      && LookupFromEntries(entries).value
           == LookupFromEntries(entries[..n]).value[IdOf(entries[n]) := ValueOf(entries[n])]
  {
    var n := |entries| - 1;
    assert forall i :: 0 <= i < n ==> entries[..n][i] == entries[i];
  }

  /** Every entry's id is a key of the table. */
  lemma {:induction false} LookupHasEveryId(entries: seq<Json>)
    requires LookupFromEntries(entries).Ok?
    ensures forall i :: 0 <= i < |entries| ==> IdOf(entries[i]) in LookupFromEntries(entries).value
    decreases |entries|
  {
    if |entries| > 0 {
      var n := |entries| - 1;
      LookupStep(entries);
      LookupHasEveryId(entries[..n]);
      assert forall i :: 0 <= i < n ==> entries[..n][i] == entries[i];
    }
  }

  /** Every key of the table is some entry's id. */
  lemma {:induction false} LookupOnlyIds(entries: seq<Json>)
    requires LookupFromEntries(entries).Ok?
    ensures forall id :: id in LookupFromEntries(entries).value ==>
      exists i :: 0 <= i < |entries| && IdOf(entries[i]) == id
    decreases |entries|
  {
    if |entries| > 0 {
      var n := |entries| - 1;
      var front := entries[..n];
      LookupStep(entries);
      LookupOnlyIds(front);
      forall id | id in LookupFromEntries(entries).value
        ensures exists i :: 0 <= i < |entries| && IdOf(entries[i]) == id
      {
        if id != IdOf(entries[n]) {
          var i :| 0 <= i < n && IdOf(front[i]) == id;
          assert IdOf(entries[i]) == id;
        }
      }
    }
  }

  /** Each id is mapped to the value of its last entry: a later entry with the
      same id overwrites an earlier one. */
  lemma {:induction false} LookupLastWins(entries: seq<Json>)
    requires LookupFromEntries(entries).Ok?
    ensures forall i :: 0 <= i < |entries| && LastWithId(entries, i) ==>
      && IdOf(entries[i]) in LookupFromEntries(entries).value
      && LookupFromEntries(entries).value[IdOf(entries[i])] == ValueOf(entries[i])
    decreases |entries|
  {
    if |entries| > 0 {
      var n := |entries| - 1;
      var front := entries[..n];
      LookupStep(entries);
      LookupLastWins(front);
      LookupHasEveryId(entries);
      forall i | 0 <= i < |entries| && LastWithId(entries, i)
        ensures IdOf(entries[i]) in LookupFromEntries(entries).value
        ensures LookupFromEntries(entries).value[IdOf(entries[i])] == ValueOf(entries[i])
      {
        if i < n {
          assert front[i] == entries[i];
          assert LastWithId(front, i);
        }
      }
    }
  }

  /**
   * `values_data["values"]` and the comprehension over it. Subscripting
   * anything but an object raises TypeError, a missing "values" KeyError.
   * Iterating an object yields its keys and a string its characters, which
   * cannot be subscripted by "id": only an empty one gives an empty table.
   * Scalars are not iterable (TypeError).
   */
  function BuildLookup(valuesDoc: Json): (r: Result<map<Json, Json>, Error>)
    ensures r.Ok? ==> valuesDoc.Obj? && "values" in valuesDoc.fields
    ensures r.Ok? && r.value != map[] ==> valuesDoc.fields["values"].Arr?
    ensures valuesDoc.Obj? && "values" in valuesDoc.fields && valuesDoc.fields["values"].Arr? ==>
      r == LookupFromEntries(valuesDoc.fields["values"].items)
    ensures !valuesDoc.Obj? ==> r == Err(TypeError)
    ensures valuesDoc.Obj? && "values" !in valuesDoc.fields ==> r == Err(KeyError)
    ensures valuesDoc.Obj? && "values" in valuesDoc.fields && !valuesDoc.fields["values"].Arr? ==>
      r == if valuesDoc.fields["values"] in {Obj(map[]), Str("")} then Ok(map[]) else Err(TypeError)
  {
    if !valuesDoc.Obj? then Err(TypeError)
    else if "values" !in valuesDoc.fields then Err(KeyError)
    else
      match valuesDoc.fields["values"]
      case Arr(entries) => LookupFromEntries(entries)
      case Obj(members) => if members == map[] then Ok(map[]) else Err(TypeError)
      case Str(chars) => if chars == "" then Ok(map[]) else Err(TypeError)
      case _ => Err(TypeError)
  }

  /** The member that `make_report` reads the id from. */
  const OnKey: string := "id"
  /** The member that `make_report` fills in. */
  const JoinKey: string := "value"

  /**
   * `make_report` from the two parsed documents to the report it writes. An
   * `Err` is a run that prints the error and writes no report.
   */
  function MakeReport(valuesDoc: Json, testsDoc: Json): (r: Result<Json, Error>)
    ensures r.Ok? <==> BuildLookup(valuesDoc).Ok? && IdsHashable(OnKey, testsDoc)
    ensures r.Ok? ==>
      Rewritten(JoinHook(JoinKey, OnKey, BuildLookup(valuesDoc).value), testsDoc, r.value)
    ensures r.Err? ==>
      r.error == (if BuildLookup(valuesDoc).Err? then BuildLookup(valuesDoc).error else TypeError)
  {
    match BuildLookup(valuesDoc)
    case Err(e) => Err(e)
    case Ok(lookup) =>
      var h := JoinHook(JoinKey, OnKey, lookup);
      LoadOkIff(h, testsDoc);
      if Load(h, testsDoc).Ok? then
        LoadMeetsSpec(h, testsDoc);
        Load(h, testsDoc)
      else
        Load(h, testsDoc)
  }

  /** The hook's own example: `{"id": "653", "value": ""}` with the table
      `{"653": "passed"}` becomes `{"id": "653", "value": "passed"}`. */
  lemma HookExample()
    ensures
      var h := JoinHook(JoinKey, OnKey, map[Str("653") := Str("passed")]);
      Hook(h, map["id" := Str("653"), "value" := Str("")])
        == Ok(map["id" := Str("653"), "value" := Str("passed")])
  {
    var h := JoinHook(JoinKey, OnKey, map[Str("653") := Str("passed")]);
    var fields := map["id" := Str("653"), "value" := Str("")];
    assert Matches(h, fields);
    assert Hook(h, fields).value == map["id" := Str("653"), "value" := Str("passed")];
  }

  /** A nested object is rewritten like the one that contains it:
      `{"group": {"id": "9", "value": "", "children": [{"id": "9", "value": ""}]}}`
      with `{"9": "Z"}` gets "Z" in both places. */
  lemma NestedExample()
    ensures
      var h := JoinHook(JoinKey, OnKey, map[Str("9") := Str("Z")]);
      var leaf := map["id" := Str("9"), "value" := Str("")];
      var doc := Obj(map["group" := Obj(leaf["children" := Arr([Obj(leaf)])])]);
      var filled := map["id" := Str("9"), "value" := Str("Z")];
      Load(h, doc) == Ok(Obj(map["group" := Obj(filled["children" := Arr([Obj(filled)])])]))
  {
    var h := JoinHook(JoinKey, OnKey, map[Str("9") := Str("Z")]);
    var leaf := map["id" := Str("9"), "value" := Str("")];
    var doc := Obj(map["group" := Obj(leaf["children" := Arr([Obj(leaf)])])]);
    var filled := map["id" := Str("9"), "value" := Str("Z")];
    var out := Obj(map["group" := Obj(filled["children" := Arr([Obj(filled)])])]);
    assert Rewritten(h, Obj(leaf), Obj(filled));
    assert Rewritten(h, Arr([Obj(leaf)]), Arr([Obj(filled)]));
    assert Rewritten(h, Obj(leaf["children" := Arr([Obj(leaf)])]), Obj(filled["children" := Arr([Obj(filled)])]));
    assert Rewritten(h, doc, out);
    assert IdsHashable(h.onKey, Obj(leaf));
    assert IdsHashable(h.onKey, Arr([Obj(leaf)]));
    assert IdsHashable(h.onKey, doc.fields["group"]);
    assert IdsHashable(h.onKey, doc);
    LoadCharacterised(h, doc, out);
  }

  /** Loading twice is not the same as loading once when the on key is also
      the join key: ids chain through the table. */
  lemma ReloadChainsWhenKeysCoincide()
    ensures
      var h := JoinHook("id", "id", map[Str("1") := Str("2"), Str("2") := Str("3")]);
      var once := Load(h, Obj(map["id" := Str("1")]));
      once == Ok(Obj(map["id" := Str("2")])) && Load(h, once.value) == Ok(Obj(map["id" := Str("3")]))
  {
    var h := JoinHook("id", "id", map[Str("1") := Str("2"), Str("2") := Str("3")]);
    LoadObjStep(h, map["id" := Str("1")]);
    assert Load(h, Obj(map["id" := Str("1")])).value.fields == map["id" := Str("2")];
    LoadObjStep(h, map["id" := Str("2")]);
    assert Load(h, Obj(map["id" := Str("2")])).value.fields == map["id" := Str("3")];
  }

  /** Ids match by equality of the decoded value: the string "1" is not the
      number 1, so it finds nothing in a table keyed by the number. */
  lemma IdsCompareByType()
    ensures
      var h := JoinHook(JoinKey, OnKey, map[Num(1.0) := Str("A")]);
      var fields := map["id" := Str("1"), "value" := Str("x")];
      Hook(h, fields) == Ok(fields)
  {
    var h := JoinHook(JoinKey, OnKey, map[Num(1.0) := Str("A")]);
    var fields := map["id" := Str("1"), "value" := Str("x")];
    assert !Matches(h, fields);
  }
}
