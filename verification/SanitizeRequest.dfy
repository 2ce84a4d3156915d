/** The global pipe that blanks out empty strings and the word null in request bodies (SanitizeRequestPipe). */
module SanitizeRequest {
  import opened Base

  /** A request value. Objects are their own enumerable fields in order; a date is opaque. */
  datatype Value =
    | Undefined
    | Null
    | Bool(b: bool)
    | Number(n: real)
    | Str(s: string)
    | Date(t: int)
    | Arr(items: seq<Value>)
    | Obj(fields: seq<Field>)

  datatype Field = Field(key: string, value: Value)

  predicate IsBlank(v: Value) {
    v == Str("") || v == Str("null")
  }

  /** Uploaded files are recognised by a `buffer` property and left alone. */
  predicate IsFile(fields: seq<Field>) {
    exists i :: 0 <= i < |fields| && fields[i].key == "buffer"
  }

  function Sanitize(v: Value): Value {
    match v
    case Arr(items) => Arr(SanitizeItems(items))
    case Obj(fields) => if IsFile(fields) then v else Obj(SanitizeFields(fields))
    case _ => v
  }

  function SanitizeItems(items: seq<Value>): (r: seq<Value>)
    ensures |r| == |items|
  {
    if items == [] then [] else [Sanitize(items[0])] + SanitizeItems(items[1..])
  }

  function SanitizeField(f: Field): Field {
    f.(value := if IsBlank(f.value) then Undefined else Sanitize(f.value))
  }

  function SanitizeFields(fields: seq<Field>): (r: seq<Field>)
    ensures |r| == |fields|
  {
    if fields == [] then [] else [SanitizeField(fields[0])] + SanitizeFields(fields[1..])
  }

  /** Only bodies that are objects or arrays are touched; a date, being an object, passes through. */
  function Transform(v: Value, isBody: bool): Value {
    if isBody && (v.Arr? || v.Obj? || v.Date?) then Sanitize(v) else v
  }

  lemma {:induction false} ItemsAt(items: seq<Value>, i: nat)
    requires i < |items|
    ensures SanitizeItems(items)[i] == Sanitize(items[i])
  {
    if i == 0 {
    } else {
      ItemsAt(items[1..], i - 1);
    }
  }

  lemma {:induction false} FieldsAt(fields: seq<Field>, i: nat)
    requires i < |fields|
    ensures SanitizeFields(fields)[i] == SanitizeField(fields[i])
  {
    if i == 0 {
    } else {
      FieldsAt(fields[1..], i - 1);
    }
  }

  /** Sanitizing keeps keys, so a file stays a file and other objects do not become one. */
  lemma FilesStayFiles(fields: seq<Field>)
    ensures IsFile(SanitizeFields(fields)) <==> IsFile(fields)
  {
    forall i | 0 <= i < |fields| ensures SanitizeFields(fields)[i].key == fields[i].key {
      FieldsAt(fields, i);
    }
    if IsFile(fields) {
      var i :| 0 <= i < |fields| && fields[i].key == "buffer";
      assert SanitizeFields(fields)[i].key == "buffer";
    }
  }

  // ----- Position by position -----

  /** The n-th child of an array or object. */
  function Child(v: Value, n: nat): Option<Value> {
    match v
    case Arr(items) => if n < |items| then Some(items[n]) else None
    case Obj(fields) => if n < |fields| then Some(fields[n].value) else None
    case _ => None
  }

  /** The value at the end of a path of child positions. */
  function At(v: Value, path: seq<nat>): Option<Value> {
    if path == [] then Some(v)
    else match Child(v, path[0])
      case None => None
      case Some(c) => At(c, path[1..])
  }

  /** The path enters a file object. */
  predicate EntersFile(v: Value, path: seq<nat>) {
    path != [] && ((v.Obj? && exists i :: 0 <= i < |v.fields| && v.fields[i].key == "buffer") || (Child(v, path[0]).Some? && EntersFile(Child(v, path[0]).value, path[1..])))
  }

  /** The path ends at an object field, rather than at the root or an array element. */
  predicate EndsAtField(v: Value, path: seq<nat>) {
    path != [] && Child(v, path[0]).Some?
    && if |path| == 1 then v.Obj? else EndsAtField(Child(v, path[0]).value, path[1..])
  }

  /** Same kind of node with the same keys, children aside; leaves must be equal. */
  predicate SameNode(a: Value, b: Value) {
    match (a, b)
    case (Arr(x), Arr(y)) => |x| == |y|
    case (Obj(x), Obj(y)) => |x| == |y| && forall i :: 0 <= i < |x| ==> x[i].key == y[i].key
    case _ => a == b
  }

  lemma SanitizeKeepsNode(v: Value)
    ensures SameNode(v, Sanitize(v))
  {
    if v.Obj? && !IsFile(v.fields) {
      forall i | 0 <= i < |v.fields| ensures SanitizeFields(v.fields)[i].key == v.fields[i].key {
        FieldsAt(v.fields, i);
      }
    }
  }

  lemma ChildOfSanitized(v: Value, n: nat)
    requires Child(v, n).Some? && !(v.Obj? && IsFile(v.fields))
    ensures Child(Sanitize(v), n)
         == Some(if v.Obj? && IsBlank(Child(v, n).value) then Undefined else Sanitize(Child(v, n).value))
  {
    match v
    case Arr(items) => ItemsAt(items, n);
    case Obj(fields) => FieldsAt(fields, n);
    case _ =>
  }

  /**
   * At every position of every request tree: within a file nothing changes, a blank object field
   * becomes undefined, and anything else, strings in arrays included, keeps its kind, keys and value.
   */
  lemma {:induction false} SanitizeAt(v: Value, path: seq<nat>)
    requires At(v, path).Some?
    ensures At(Sanitize(v), path).Some?
    ensures
      var before, after := At(v, path).value, At(Sanitize(v), path).value;
      if EntersFile(v, path) then after == before
      else if EndsAtField(v, path) && (before == Str("") || before == Str("null")) then after == Undefined
      else SameNode(before, after)
    decreases |path|
  {
    if path == [] {
      SanitizeKeepsNode(v);
    } else if v.Obj? && IsFile(v.fields) {
      assert Sanitize(v) == v;
    } else {
      var c := Child(v, path[0]).value;
      ChildOfSanitized(v, path[0]);
      if v.Obj? && IsBlank(c) {
        assert path[1..] == [] by {
          assert Child(c, if |path| > 1 then path[1] else 0) == None;
        }
        assert !EntersFile(c, path[1..]) && !EntersFile(v, path);
      } else {
        SanitizeAt(c, path[1..]);
        if |path| == 1 {
          assert Sanitize(v).Arr? || Sanitize(v).Obj?;
        }
      }
    }
  }

  /** No position appears that was not there. */
  lemma {:induction false} SanitizeAddsNothing(v: Value, path: seq<nat>)
    requires At(v, path).None?
    ensures At(Sanitize(v), path).None?
    decreases |path|
  {
    SanitizeKeepsNode(v);
    if path != [] && Child(v, path[0]).Some? && !(v.Obj? && IsFile(v.fields)) {
      ChildOfSanitized(v, path[0]);
      if !(v.Obj? && IsBlank(Child(v, path[0]).value)) {
        SanitizeAddsNothing(Child(v, path[0]).value, path[1..]);
      }
    }
  }

  // ----- Clean requests -----

  /** No object field outside file objects is blank. */
  ghost predicate Clean(v: Value) {
    forall path :: At(v, path).Some? && EndsAtField(v, path) && !EntersFile(v, path) ==>
      At(v, path).value != Str("") && At(v, path).value != Str("null")
  }

  /** A path through the n-th child goes on as it does in that child. */
  lemma PathThroughChild(v: Value, n: nat, path: seq<nat>)
    requires Child(v, n).Some? && !(v.Obj? && IsFile(v.fields))
    ensures
      var c := Child(v, n).value;
      && At(v, [n] + path) == At(c, path)
      && (EntersFile(v, [n] + path) <==> EntersFile(c, path))
      && (EndsAtField(v, [n] + path) <==> if path == [] then v.Obj? else EndsAtField(c, path))
  {
    assert ([n] + path)[0] == n && ([n] + path)[1..] == path;
  }

  lemma CleanChild(v: Value, n: nat)
    requires Clean(v) && Child(v, n).Some? && !(v.Obj? && IsFile(v.fields))
    ensures Clean(Child(v, n).value)
    ensures v.Obj? ==> !IsBlank(Child(v, n).value)
  {
    var c := Child(v, n).value;
    forall path | At(c, path).Some? && EndsAtField(c, path) && !EntersFile(c, path) ensures !IsBlank(At(c, path).value) {
      PathThroughChild(v, n, path);
      assert !IsBlank(At(v, [n] + path).value);
    }
    if v.Obj? {
      PathThroughChild(v, n, []);
      assert !IsBlank(At(v, [n] + []).value);
    }
  }

  lemma {:induction false} CleanIsFixed(v: Value)
    requires Clean(v)
    ensures Sanitize(v) == v
    decreases v
  {
    match v
    case Arr(items) =>
      forall i | 0 <= i < |items| ensures SanitizeItems(items)[i] == items[i] {
        CleanChild(v, i);
        ItemsAt(items, i);
        CleanIsFixed(items[i]);
      }
      assert SanitizeItems(items) == items;
    case Obj(fields) =>
      if !IsFile(fields) {
        forall i | 0 <= i < |fields| ensures SanitizeFields(fields)[i] == fields[i] {
          CleanChild(v, i);
          FieldsAt(fields, i);
          CleanIsFixed(fields[i].value);
        }
        assert SanitizeFields(fields) == fields;
      }
    case _ =>
  }

  /** Sanitizing moves no path into or out of a file, and no end of a path to or from a field. */
  lemma {:induction false} PathKindsStay(v: Value, path: seq<nat>)
    requires At(v, path).Some?
    ensures EntersFile(Sanitize(v), path) <==> EntersFile(v, path)
    ensures EndsAtField(Sanitize(v), path) <==> EndsAtField(v, path)
    decreases |path|
  {
    if path != [] && !(v.Obj? && IsFile(v.fields)) {
      var c := Child(v, path[0]).value;
      ChildOfSanitized(v, path[0]);
      if v.Obj? {
        FilesStayFiles(v.fields);
      }
      if v.Obj? && IsBlank(c) {
        assert path[1..] == [] by {
          assert Child(c, if |path| > 1 then path[1] else 0) == None;
        }
      } else {
        PathKindsStay(c, path[1..]);
      }
    }
  }

  /** The result is clean. */
  lemma SanitizedIsClean(v: Value)
    ensures Clean(Sanitize(v))
  {
    var w := Sanitize(v);
    forall path | At(w, path).Some? && EndsAtField(w, path) && !EntersFile(w, path) ensures !IsBlank(At(w, path).value) {
      if At(v, path).None? {
        SanitizeAddsNothing(v, path);
      }
      SanitizeAt(v, path);
      PathKindsStay(v, path);
    }
  }

  /** Sanitizing changes nothing exactly on clean requests; in particular twice is once. */
  lemma FixedExactlyWhenClean(v: Value)
    ensures Sanitize(v) == v <==> Clean(v)
    ensures Sanitize(Sanitize(v)) == Sanitize(v)
  {
    SanitizedIsClean(v);
    CleanIsFixed(Sanitize(v));
    if Clean(v) {
      CleanIsFixed(v);
    }
  }

  lemma TransformIsIdempotent(v: Value, isBody: bool)
    ensures Transform(Transform(v, isBody), isBody) == Transform(v, isBody)
  {
    FixedExactlyWhenClean(v);
  }

  // ----- The pipe -----

  /** What cleaning a request means at one position: files as they were, blank fields undefined, all else kept. */
  ghost predicate CleanedAt(before: Value, after: Value, path: seq<nat>)
    requires At(before, path).Some? && At(after, path).Some?
  {
    var a, b := At(before, path).value, At(after, path).value;
    if EntersFile(before, path) then b == a
    else if EndsAtField(before, path) && (a == Str("") || a == Str("null")) then b == Undefined
    else SameNode(a, b)
  }

  /** The same positions, each cleaned. */
  ghost predicate CleanedFrom(before: Value, after: Value) {
    forall path ::
      (At(after, path).Some? <==> At(before, path).Some?)
      && (At(before, path).Some? ==> CleanedAt(before, after, path))
  }

  lemma SanitizeCleans(v: Value)
    ensures Clean(Sanitize(v)) && CleanedFrom(v, Sanitize(v))
  {
    SanitizedIsClean(v);
    forall path
      ensures (At(Sanitize(v), path).Some? <==> At(v, path).Some?)
              && (At(v, path).Some? ==> CleanedAt(v, Sanitize(v), path))
    {
      if At(v, path).Some? {
        SanitizeAt(v, path);
      } else {
        SanitizeAddsNothing(v, path);
      }
    }
  }

  /** What the pipe does to a request part: bodies that are objects or arrays are cleaned, the rest is let through. */
  ghost predicate Piped(before: Value, after: Value, isBody: bool) {
    if isBody && (before.Arr? || before.Obj?) then Clean(after) && CleanedFrom(before, after) else after == before
  }

  lemma TransformPipes(v: Value, isBody: bool)
    ensures Piped(v, Transform(v, isBody), isBody)
  {
    SanitizeCleans(v);
  }

  // ----- The pipe, on the objects themselves -----

  /** A value as the program holds it: objects are references, shared by whoever holds them. */
  datatype Held = Leaf(value: Value) | ArrayOf(items: seq<Held>) | ObjectOf(record: Record)

  class Record {
    const keys: seq<string>
    var values: seq<Held>

    constructor (keys: seq<string>, values: seq<Held>)
      ensures this.keys == keys && this.values == values
    {
      this.keys, this.values := keys, values;
    }
  }

  /** The shape of a parsed request: which objects it consists of, and where. */
  datatype Shape = LeafShape(value: Value) | ArrayShape(items: seq<Shape>) | RecordShape(record: Record, items: seq<Shape>)

  ghost function Footprint(t: Shape): set<Record> {
    match t
    case LeafShape(_) => {}
    case ArrayShape(items) => Footprints(items)
    case RecordShape(record, items) => {record} + Footprints(items)
  }

  ghost function Footprints(items: seq<Shape>): (all: set<Record>)
    ensures forall i :: 0 <= i < |items| ==> Footprint(items[i]) <= all
  {
    set i, r | 0 <= i < |items| && r in Footprint(items[i]) :: r
  }

  /** A parsed request is a tree: no object occurs in two places. */
  ghost predicate IsTree(t: Shape) {
    match t
    case LeafShape(x) => !x.Arr? && !x.Obj?
    case ArrayShape(items) => Apart(items) && forall i :: 0 <= i < |items| ==> IsTree(items[i])
    case RecordShape(record, items) =>
      && |record.keys| == |items|
      && Apart(items)
      && forall i :: 0 <= i < |items| ==> IsTree(items[i]) && record !in Footprint(items[i])
  }

  ghost predicate Apart(items: seq<Shape>) {
    forall i, j :: 0 <= i < j < |items| ==> Footprint(items[i]) !! Footprint(items[j])
  }

  /** The heap holds at `v` what the shape says. */
  ghost predicate Holds(v: Held, t: Shape)
    reads Footprint(t)
    decreases t
  {
    match t
    case LeafShape(x) => v == Leaf(x)
    case ArrayShape(items) =>
      v.ArrayOf? && |v.items| == |items| && forall i :: 0 <= i < |items| ==> Holds(v.items[i], items[i])
    case RecordShape(record, items) =>
      v == ObjectOf(record) && |record.values| == |items| && forall i :: 0 <= i < |items| ==> Holds(record.values[i], items[i])
  }

  /** The request as a value. */
  ghost function Read(t: Shape): Value
    requires IsTree(t)
  {
    match t
    case LeafShape(x) => x
    case ArrayShape(items) => Arr(seq(|items|, i requires 0 <= i < |items| => Read(items[i])))
    case RecordShape(record, items) => Obj(seq(|items|, i requires 0 <= i < |items| => Field(record.keys[i], Read(items[i]))))
  }

  lemma ArrayIsSanitized(items: seq<Shape>, cleaned: seq<Shape>)
    requires IsTree(ArrayShape(items)) && IsTree(ArrayShape(cleaned)) && |cleaned| == |items|
    requires forall k :: 0 <= k < |items| ==> Read(cleaned[k]) == Sanitize(Read(items[k]))
    ensures Read(ArrayShape(cleaned)) == Sanitize(Read(ArrayShape(items)))
  {
    var before := Read(ArrayShape(items)).items;
    forall k | 0 <= k < |items| ensures SanitizeItems(before)[k] == Read(cleaned[k]) {
      ItemsAt(before, k);
    }
    assert Read(ArrayShape(cleaned)).items == SanitizeItems(before);
  }

  lemma RecordIsSanitized(record: Record, items: seq<Shape>, cleaned: seq<Shape>)
    requires IsTree(RecordShape(record, items)) && IsTree(RecordShape(record, cleaned))
    requires "buffer" !in record.keys
    requires forall k :: 0 <= k < |items| ==>
               Read(cleaned[k]) == SanitizeField(Field(record.keys[k], Read(items[k]))).value
    ensures Read(RecordShape(record, cleaned)) == Sanitize(Read(RecordShape(record, items)))
  {
    var before := Read(RecordShape(record, items)).fields;
    assert !IsFile(before);
    forall k | 0 <= k < |items| ensures SanitizeFields(before)[k] == Field(record.keys[k], Read(cleaned[k])) {
      FieldsAt(before, k);
    }
    assert Read(RecordShape(record, cleaned)).fields == SanitizeFields(before);
  }

  /** A file is recognised by the keys of its object. */
  lemma FilesAreKept(record: Record, items: seq<Shape>)
    requires IsTree(RecordShape(record, items)) && "buffer" in record.keys
    ensures Sanitize(Read(RecordShape(record, items))) == Read(RecordShape(record, items))
  {
    var k :| 0 <= k < |record.keys| && record.keys[k] == "buffer";
    assert Read(RecordShape(record, items)).fields[k].key == "buffer";
  }

  /** Shapes that agree item by item on their footprints are equally far apart. */
  lemma SameFootprints(items: seq<Shape>, cleaned: seq<Shape>)
    requires |cleaned| == |items| && forall k :: 0 <= k < |items| ==> Footprint(cleaned[k]) == Footprint(items[k])
    ensures Footprints(cleaned) == Footprints(items)
    ensures Apart(items) ==> Apart(cleaned)
  {
  }

  /** A held leaf is its own value; nothing else reads as a blank or a date. */
  lemma LeavesAreRead(v: Held, t: Shape)
    requires IsTree(t) && Holds(v, t)
    ensures v.Leaf? ==> t == LeafShape(v.value) && Read(t) == v.value && Footprint(t) == {}
    ensures v.Leaf? ==> Sanitize(Read(t)) == Read(t)
    ensures !v.Leaf? ==> !IsBlank(Read(t))
    ensures var u := LeafShape(Undefined);
            IsTree(u) && Read(u) == Undefined && Footprint(u) == {} && Holds(Leaf(Undefined), u)
  {
  }

  /**
   * sanitize: objects are overwritten where they are, arrays are copied, nothing outside the request
   * is touched, and what the request then holds is the sanitized value.
   */
  method SanitizeHeld(v: Held, ghost t: Shape) returns (r: Held, ghost u: Shape)
    requires IsTree(t) && Holds(v, t)
    modifies Footprint(t)
    ensures IsTree(u) && Holds(r, u) && Footprint(u) == Footprint(t)
    ensures Read(u) == Sanitize(Read(t))
    ensures v.ObjectOf? ==> r == v
    decreases t
  {
    match v {
      case Leaf(_) =>
        return v, t;
      case ArrayOf(items) =>
        var mapped, us := SanitizeElements(items, t.items);
        SameFootprints(t.items, us);
        ArrayIsSanitized(t.items, us);
        return ArrayOf(mapped), ArrayShape(us);
      case ObjectOf(record) =>
        if "buffer" in record.keys {
          FilesAreKept(record, t.items);
          return v, t;
        }
        ghost var us := OverwriteFields(record, t.items);
        SameFootprints(t.items, us);
        RecordIsSanitized(record, t.items, us);
        return v, RecordShape(record, us);
    }
  }

  /** What sanitizing one part of a request must yield. */
  ghost predicate Cleaned(before: Shape, after: Shape)
    requires IsTree(before)
  {
    IsTree(after) && Read(after) == Sanitize(Read(before))
  }

  /** obj.map(...) */
  method SanitizeElements(items: seq<Held>, ghost ts: seq<Shape>) returns (mapped: seq<Held>, ghost us: seq<Shape>)
    requires |items| == |ts| && Apart(ts) && forall k :: 0 <= k < |ts| ==> IsTree(ts[k]) && Holds(items[k], ts[k])
    modifies Footprints(ts)
    ensures |mapped| == |us| == |ts|
    ensures forall k :: 0 <= k < |ts| ==> Footprint(us[k]) == Footprint(ts[k])
    ensures forall k :: 0 <= k < |ts| ==> Cleaned(ts[k], us[k]) && Holds(mapped[k], us[k])
    decreases ts
  {
    hide IsTree, Footprint, Footprints, Holds, Read, Sanitize;
    assert forall k :: 0 <= k < |ts| ==> allocated(Footprint(ts[k]));
    mapped, us := [], [];
    for i := 0 to |items|
      invariant |mapped| == |us| == i
      invariant forall k :: 0 <= k < i ==> Footprint(us[k]) == Footprint(ts[k])
      invariant forall k :: 0 <= k < i ==> Cleaned(ts[k], us[k])
      invariant forall k :: 0 <= k < i ==> Holds(mapped[k], us[k])
      invariant forall k :: i <= k < |items| ==> Holds(items[k], ts[k])
    {
      var item, shape := SanitizeHeld(items[i], ts[i]);
      mapped, us := mapped + [item], us + [shape];
    }
  }

  /** One field: blank strings become undefined. */
  ghost predicate FieldCleaned(before: Shape, after: Shape)
    requires IsTree(before)
  {
    IsTree(after) && Read(after) == if IsBlank(Read(before)) then Undefined else Sanitize(Read(before))
  }

  /** Object.keys(record).forEach(...) */
  method OverwriteFields(record: Record, ghost ts: seq<Shape>) returns (ghost us: seq<Shape>)
    requires |record.keys| == |record.values| == |ts| && Apart(ts) && record !in Footprints(ts)
    requires forall k :: 0 <= k < |ts| ==> IsTree(ts[k]) && Holds(record.values[k], ts[k])
    modifies record, Footprints(ts)
    ensures |record.values| == |us| == |ts|
    ensures forall k :: 0 <= k < |ts| ==> Footprint(us[k]) == Footprint(ts[k])
    ensures forall k :: 0 <= k < |ts| ==> FieldCleaned(ts[k], us[k]) && Holds(record.values[k], us[k])
    decreases ts
  {
    hide IsTree, Footprint, Footprints, Holds, Read, Sanitize;
    assert forall k :: 0 <= k < |ts| ==> allocated(Footprint(ts[k]));
    us := ts;
    for i := 0 to |record.keys|
      invariant |record.values| == |us| == |ts|
      invariant forall k :: 0 <= k < |ts| ==> Footprint(us[k]) == Footprint(ts[k])
      invariant forall k :: 0 <= k < i ==> FieldCleaned(ts[k], us[k])
      invariant forall k :: i <= k < |ts| ==> us[k] == ts[k]
      invariant forall k :: 0 <= k < |ts| ==> Holds(record.values[k], us[k])
    {
      ghost var t := ts[i];
      var val := record.values[i];
      LeavesAreRead(val, t);
      if val == Leaf(Str("")) || val == Leaf(Str("null")) {
        record.values := record.values[i := Leaf(Undefined)];
        us := us[i := LeafShape(Undefined)];
      } else if !val.Leaf? || val.value.Date? {
        var clean, u := SanitizeHeld(val, t);
        record.values := record.values[i := clean];
        us := us[i := u];
      }
    }
  }

  /** transform: only bodies are sanitized. */
  method TransformHeld(v: Held, isBody: bool, ghost t: Shape) returns (r: Held, ghost u: Shape)
    requires IsTree(t) && Holds(v, t)
    modifies if isBody then Footprint(t) else {}
    ensures IsTree(u) && Holds(r, u) && Footprint(u) == Footprint(t)
    ensures Read(u) == Transform(Read(t), isBody)
    ensures Piped(Read(t), Read(u), isBody)
    ensures v.ObjectOf? || !isBody ==> r == v
  {
    TransformPipes(Read(t), isBody);
    if isBody && (!v.Leaf? || v.value.Date?) {
      r, u := SanitizeHeld(v, t);
    } else {
      r, u := v, t;
    }
  }
}
