/** The XSS middleware's walk over a decoded request body: clean and sanitizeValue overwrite map entries
    and slice elements in place while they recurse. The text sanitizer itself is a parameter. */
module Sanitizer {
  import opened Strings

  /** A JSON value as a value. */
  datatype Json =
    | JText(text: string)
    | JNumber(number: real)
    | JBool(flag: bool)
    | JNull
    | JObject(fields: map<string, Json>)
    | JArray(elems: seq<Json>)

  type Clean = string -> string

  /** The same tree with every string leaf cleaned; keys are left alone. */
  function MapText(f: Clean, t: Json): Json
    decreases t
  {
    match t
    case JText(s) => JText(f(s))
    case JObject(m) => JObject(map k | k in m :: MapText(f, m[k]))
    case JArray(e) => JArray(seq(|e|, i requires 0 <= i < |e| => MapText(f, e[i])))
    case _ => t
  }

  // ---------------------------------------------------------------- what the map means

  datatype Step = Field(key: string) | Index(at: nat)

  /** The subtree at the end of a path. */
  function At(t: Json, path: seq<Step>): Option<Json>
    decreases |path|
  {
    if path == [] then Some(t)
    else match path[0]
      case Field(k) => if t.JObject? && k in t.fields then At(t.fields[k], path[1..]) else None
      case Index(i) => if t.JArray? && i < |t.elems| then At(t.elems[i], path[1..]) else None
  }

  /** Cleaning adds and drops no path, and at the end of each it cleans a string and keeps a number, a
      boolean, a null, the keys of an object and the length of an array. */
  lemma {:induction false} CleanAt(f: Clean, t: Json, path: seq<Step>)
    ensures At(MapText(f, t), path).Some? <==> At(t, path).Some?
    ensures At(t, path).Some? ==>
              var before, after := At(t, path).value, At(MapText(f, t), path).value;
              match before
              case JText(s) => after == JText(f(s))
              case JObject(m) => after.JObject? && after.fields.Keys == m.Keys
              case JArray(e) => after.JArray? && |after.elems| == |e|
              case _ => after == before
    decreases |path|
  {
    if path != [] {
      match path[0]
      case Field(k) => if t.JObject? && k in t.fields { CleanAt(f, t.fields[k], path[1..]); }
      case Index(i) => if t.JArray? && i < |t.elems| { CleanAt(f, t.elems[i], path[1..]); }
    }
  }

  /** Cleaning twice is cleaning once if that holds for texts. */
  lemma {:induction false} CleanTwice(f: Clean, t: Json)
    requires forall s :: f(f(s)) == f(s)
    ensures MapText(f, MapText(f, t)) == MapText(f, t)
    decreases t
  {
    var once := MapText(f, t);
    match t
    case JObject(m) =>
      forall k | k in m ensures MapText(f, once.fields[k]) == once.fields[k] { CleanTwice(f, m[k]); }
      assert MapText(f, once).fields == once.fields;
    case JArray(e) =>
      forall i | 0 <= i < |e| ensures MapText(f, once.elems[i]) == once.elems[i] { CleanTwice(f, e[i]); }
      assert MapText(f, once).elems == once.elems;
    case _ =>
  }

  // ---------------------------------------------------------------- values in memory

  class ObjectCell {
    var fields: map<string, Value>
    ghost var kids: map<string, set<object>>   // the memory below each field

    constructor ()
    {
      fields, kids := map[], map[];
    }
  }

  class ArrayCell {
    var elems: array<Value>
    ghost var kids: seq<set<object>>

    constructor (elems: array<Value>)
    {
      this.elems, kids := elems, [];
    }
  }

  /** What an interface{} holds after decoding. */
  datatype Value =
    | Text(text: string)
    | Number(number: real)
    | Bool(flag: bool)
    | Null
    | Object(obj: ObjectCell)
    | Array(arr: ArrayCell)

  /** Value v stands for tree t and lives in memory r, where no cell is reached twice. */
  ghost predicate Rep(v: Value, t: Json, r: set<object>)
    reads r
    decreases t
  {
    match t
    case JText(s) => v == Text(s)
    case JNumber(n) => v == Number(n)
    case JBool(b) => v == Bool(b)
    case JNull => v == Null
    case JObject(m) =>
      && v.Object? && v.obj in r
      && v.obj.fields.Keys == m.Keys && v.obj.kids.Keys == m.Keys
      && (forall k :: k in m ==> v.obj.kids[k] <= r - {v.obj})
      && (forall k :: k in m ==> Rep(v.obj.fields[k], m[k], v.obj.kids[k]))
      && (forall j, k :: j in m && k in m && j != k ==> v.obj.kids[j] !! v.obj.kids[k])
    case JArray(e) =>
      && v.Array? && v.arr in r && v.arr.elems in r
      && v.arr.elems.Length == |v.arr.kids| == |e|
      && (forall i :: 0 <= i < |e| ==> v.arr.kids[i] <= r - {v.arr, v.arr.elems})
      && (forall i :: 0 <= i < |e| ==> Rep(v.arr.elems[i], e[i], v.arr.kids[i]))
      && (forall i, j :: 0 <= i < j < |e| ==> v.arr.kids[i] !! v.arr.kids[j])
  }

  /** A value stands for one tree only. */
  lemma {:induction false} RepIsUnique(v: Value, t: Json, r: set<object>, u: Json, q: set<object>)
    requires Rep(v, t, r) && Rep(v, u, q)
    ensures t == u
    decreases t
  {
    match t
    case JObject(m) =>
      forall k | k in m ensures m[k] == u.fields[k] {
        RepIsUnique(v.obj.fields[k], m[k], v.obj.kids[k], u.fields[k], v.obj.kids[k]);
      }
      assert m == u.fields;
    case JArray(e) =>
      forall i | 0 <= i < |e| ensures e[i] == u.elems[i] {
        RepIsUnique(v.arr.elems[i], e[i], v.arr.kids[i], u.elems[i], v.arr.kids[i]);
      }
      assert e == u.elems;
    case _ =>
  }

  // ---------------------------------------------------------------- the walk

  /** Object o stands for m, but for the value of field k. */
  ghost predicate RepBut(o: ObjectCell, m: map<string, Json>, k: string, r: set<object>)
    requires k in o.kids
    reads o, r - o.kids[k]
  {
    && o in r && k in m
    && o.fields.Keys == m.Keys && o.kids.Keys == m.Keys
    && (forall j :: j in m ==> o.kids[j] <= r - {o})
    && (forall j, l :: j in m && l in m && j != l ==> o.kids[j] !! o.kids[l])
    && (forall j :: j in m && j != k ==> o.kids[j] <= r - o.kids[k] && Rep(o.fields[j], m[j], o.kids[j]))
  }

  /** v[key] = value. */
  method Store(o: ObjectCell, k: string, w: Value, ghost u: Json, ghost m: map<string, Json>, ghost r: set<object>)
    requires k in o.kids && RepBut(o, m, k, r) && Rep(w, u, o.kids[k])
    modifies o
    ensures Rep(Object(o), JObject(m[k := u]), r)
  {
    ghost var fields, kids := o.fields, o.kids;
    o.fields := o.fields[k := w];
    forall j | j in m && j != k
      ensures Rep(fields[j], m[j], kids[j]) == old(Rep(fields[j], m[j], kids[j]))
    {
    }
    assert Rep(w, u, kids[k]) == old(Rep(w, u, kids[k]));
  }

  /** One entry of a map. */
  method CleanEntry(f: Clean, o: ObjectCell, k: string, ghost m: map<string, Json>, ghost r: set<object>)
    requires Rep(Object(o), JObject(m), r) && k in m
    modifies r
    ensures Rep(Object(o), JObject(m[k := MapText(f, m[k])]), r)
    decreases m[k], 2
  {
    assert RepBut(o, m, k, r);
    var w := SanitizeValue(f, o.fields[k], m[k], o.kids[k]);
    Store(o, k, w, MapText(f, m[k]), m, r);
  }

  /** The entries while those in keys are still to be cleaned. */
  ghost function Progress(f: Clean, m: map<string, Json>, keys: set<string>): map<string, Json> {
    map k | k in m :: if k in keys then m[k] else MapText(f, m[k])
  }

  lemma ProgressEnds(f: Clean, m: map<string, Json>)
    ensures Progress(f, m, m.Keys) == m
    ensures JObject(Progress(f, m, {})) == MapText(f, JObject(m))
  {
    assert Progress(f, m, {}) == MapText(f, JObject(m)).fields;
  }

  lemma ProgressStep(f: Clean, m: map<string, Json>, keys: set<string>, k: string)
    requires k in keys && keys <= m.Keys
    ensures var now := Progress(f, m, keys);
            k in now && now[k] == m[k] && now[k := MapText(f, now[k])] == Progress(f, m, keys - {k})
  {
  }

  /** The loop over the entries of a map, in any order. */
  method CleanObject(f: Clean, o: ObjectCell, ghost m: map<string, Json>, ghost r: set<object>)
    requires Rep(Object(o), JObject(m), r)
    modifies r
    ensures Rep(Object(o), MapText(f, JObject(m)), r)
    decreases JObject(m), 0
  {
    ProgressEnds(f, m);
    var keys := o.fields.Keys;
    while keys != {}
      invariant keys <= m.Keys
      invariant Rep(Object(o), JObject(Progress(f, m, keys)), r)
      decreases keys
    {
      var k :| k in keys;
      ProgressStep(f, m, keys, k);
      CleanEntry(f, o, k, Progress(f, m, keys), r);
      keys := keys - {k};
    }
  }

  /** One element of a slice. */
  method CleanElement(f: Clean, a: ArrayCell, i: nat, ghost e: seq<Json>, ghost r: set<object>)
    requires Rep(Array(a), JArray(e), r) && i < |e|
    modifies r
    ensures Rep(Array(a), JArray(e[i := MapText(f, e[i])]), r)
    ensures a.elems == old(a.elems)
    decreases e[i], 2
  {
    ghost var kids := a.kids;
    ghost var before := a.elems[..];
    ghost var below := kids[i];
    var w := SanitizeValue(f, a.elems[i], e[i], below);
    forall j | 0 <= j < |e| && j != i
      ensures Rep(before[j], e[j], kids[j]) == old(Rep(before[j], e[j], kids[j]))
    {
      assert kids[j] !! below;
    }
    label Stored:
    a.elems[i] := w;
    assert Rep(w, MapText(f, e[i]), below) == old@Stored(Rep(w, MapText(f, e[i]), below));
    forall j | 0 <= j < |e| && j != i
      ensures Rep(before[j], e[j], kids[j]) == old@Stored(Rep(before[j], e[j], kids[j]))
    {
    }
  }

  /** The elements while only the first n have been cleaned. */
  ghost function Cleaned(f: Clean, e: seq<Json>, n: nat): seq<Json>
    requires n <= |e|
  {
    seq(|e|, i requires 0 <= i < |e| => if i < n then MapText(f, e[i]) else e[i])
  }

  lemma CleanedEnds(f: Clean, e: seq<Json>)
    ensures Cleaned(f, e, 0) == e
    ensures JArray(Cleaned(f, e, |e|)) == MapText(f, JArray(e))
  {
    assert Cleaned(f, e, |e|) == MapText(f, JArray(e)).elems;
  }

  lemma CleanedStep(f: Clean, e: seq<Json>, n: nat)
    requires n < |e|
    ensures Cleaned(f, e, n)[n] == e[n]
    ensures Cleaned(f, e, n)[n := MapText(f, e[n])] == Cleaned(f, e, n + 1)
  {
  }

  /** The loop over the elements of a slice. */
  method CleanArray(f: Clean, a: ArrayCell, ghost e: seq<Json>, ghost r: set<object>)
    requires Rep(Array(a), JArray(e), r)
    modifies r
    ensures Rep(Array(a), MapText(f, JArray(e)), r)
    decreases JArray(e), 0
  {
    CleanedEnds(f, e);
    var i := 0;
    while i < a.elems.Length
      invariant 0 <= i <= a.elems.Length == |e|
      invariant Rep(Array(a), JArray(Cleaned(f, e, i)), r)
    {
      CleanedStep(f, e, i);
      CleanElement(f, a, i, Cleaned(f, e, i), r);
      i := i + 1;
    }
  }

  /** sanitizeValue: containers are cleaned where they are, and the same container is returned. */
  method SanitizeValue(f: Clean, v: Value, ghost t: Json, ghost r: set<object>) returns (w: Value)
    requires Rep(v, t, r)
    modifies r
    ensures Rep(w, MapText(f, t), r)
    ensures v.Object? || v.Array? ==> w == v
    decreases t, 1
  {
    match v
    case Object(o) =>
      CleanObject(f, o, t.fields, r);
      return v;
    case Array(a) =>
      CleanArray(f, a, t.elems, r);
      return v;
    case Text(s) => return Text(f(s));
    case _ => return v;
  }

  /** clean: the body as a whole. It fails exactly when that is a number, a boolean or null, and then
      touches nothing. */
  method CleanBody(f: Clean, data: Value, ghost t: Json, ghost r: set<object>) returns (cleaned: Option<Value>)
    requires Rep(data, t, r)
    modifies r
    ensures cleaned.Some? <==> t.JObject? || t.JArray? || t.JText?
    ensures cleaned.Some? ==> Rep(cleaned.value, MapText(f, t), r)
    ensures cleaned.Some? ==> forall u, q: set<object> :: Rep(cleaned.value, u, q) ==> u == MapText(f, t)
    ensures cleaned.None? ==> forall o :: o in r ==> unchanged(o)
  {
    match data {
      case Object(o) =>
        CleanObject(f, o, t.fields, r);
        cleaned := Some(data);
      case Array(a) =>
        CleanArray(f, a, t.elems, r);
        cleaned := Some(data);
      case Text(s) => cleaned := Some(Text(f(s)));
      case _ => return None;
    }
    forall u, q: set<object> | Rep(cleaned.value, u, q) ensures u == MapText(f, t) {
      RepIsUnique(cleaned.value, u, q, MapText(f, t), r);
    }
  }
}
