/** The JSON objects of `unstructured.Unstructured`, with the accessors the merge code uses. */
module Unstructured {
  import opened Prelude
  import Text

  datatype Json =
    | Null
    | Boolean(b: bool)
    | Number(n: Int64)
    | Float(repr: string)
    | Str(s: string)
    | List(items: seq<Json>)
    | Object(fields: Fields)

  type Fields = map<string, Json>

  /** The three answers of the nested accessors: not found, an error, a value. */
  datatype Lookup<+T> = Missing | Malformed | Value(value: T)

  const METADATA := "metadata"
  const ANNOTATIONS := "annotations"
  const LABELS := "labels"

  // ----- reading -----

  /** `NestedFieldNoCopy` on a path of two fields. */
  function Nested(c: Fields, outer: string, inner: string): Lookup<Json> {
    if outer !in c then Missing
    else
      match c[outer]
      case Null => Missing
      case Object(fields) => if inner in fields then Value(fields[inner]) else Missing
      case _ => Malformed
  }

  /** `NestedString` on a path of two fields. */
  function NestedString(c: Fields, outer: string, inner: string): Lookup<string> {
    match Nested(c, outer, inner)
    case Missing => Missing
    case Malformed => Malformed
    case Value(v) => if v.Str? then Value(v.s) else Malformed
  }

  /** `NestedSlice` on a path of one field. */
  function TopSlice(c: Fields, key: string): Lookup<seq<Json>> {
    if key !in c then Missing else if c[key].List? then Value(c[key].items) else Malformed
  }

  function TopString(c: Fields, key: string): string {
    if key in c && c[key].Str? then c[key].s else ""
  }

  /** A text field of the metadata, empty when it is missing or malformed. */
  function MetaText(c: Fields, key: string): string {
    match NestedString(c, METADATA, key)
    case Value(s) => s
    case _ => ""
  }

  /** `GetGeneration`. */
  function Generation(c: Fields): Int64 {
    match Nested(c, METADATA, "generation")
    case Value(v) => if v.Number? then v.n else 0
    case _ => 0
  }

  predicate AllText(fields: Fields) {
    forall k :: k in fields ==> fields[k].Str?
  }

  /** `GetAnnotations` and `GetLabels`; nothing unless all values are texts. */
  function Strings(c: Fields, key: string): map<string, string> {
    match Nested(c, METADATA, key)
    case Value(v) => if v.Object? && AllText(v.fields) then map k | k in v.fields :: v.fields[k].s else map[]
    case _ => map[]
  }

  datatype GroupVersionKind = GroupVersionKind(group: string, version: string, kind: string)

  /** `GroupVersionKind`; an API version with two slashes leaves everything empty. */
  function KindOf(c: Fields): GroupVersionKind {
    var apiVersion, kind := TopString(c, "apiVersion"), TopString(c, "kind");
    var slash := Text.IndexOf(apiVersion, '/');
    if slash < 0 then GroupVersionKind("", apiVersion, kind)
    else if Text.IndexOf(apiVersion[slash + 1..], '/') >= 0 then GroupVersionKind("", "", "")
    else GroupVersionKind(apiVersion[..slash], apiVersion[slash + 1..], kind)
  }

  predicate IsKind(c: Fields, group: string, kind: string) {
    KindOf(c).group == group && KindOf(c).kind == kind
  }

  /** The kind is read from two fields only. */
  lemma KindFields(c: Fields, c': Fields)
    requires TopString(c, "apiVersion") == TopString(c', "apiVersion") && TopString(c, "kind") == TopString(c', "kind")
    ensures KindOf(c) == KindOf(c')
  {
  }

  // ----- writing -----

  /** `SetNestedField` on a path of two fields: the object afterwards, and whether it fails. */
  function WithNested(c: Fields, outer: string, inner: string, v: Json): (Fields, bool) {
    if outer !in c then (c[outer := Object(map[inner := v])], false)
    else if c[outer].Object? then (c[outer := Object(c[outer].fields[inner := v])], false)
    else (c, true)
  }

  /** `RemoveNestedField` on a path of two fields. */
  function WithoutNested(c: Fields, outer: string, inner: string): Fields {
    if outer in c && c[outer].Object? then c[outer := Object(c[outer].fields - {inner})] else c
  }

  /** The metadata setters: zero values are removed, and failures are dropped. */
  function PutMeta(c: Fields, key: string, v: Option<Json>): Fields {
    match v
    case Some(json) => WithNested(c, METADATA, key, json).0
    case None => WithoutNested(c, METADATA, key)
  }

  function TextField(s: string): Option<Json> {
    if s == "" then None else Some(Str(s))
  }

  function NumberField(n: Int64): Option<Json> {
    if n == 0 then None else Some(Number(n))
  }

  function FromStrings(m: map<string, string>): Json {
    Object(map k | k in m :: Str(m[k]))
  }

  // ----- the code -----

  class Unstructured {
    var content: Fields

    constructor (c: Fields)
      ensures content == c
    {
      content := c;
    }

    method SetNestedField(v: Json, outer: string, inner: string) returns (err: bool)
      modifies this
      ensures (content, err) == WithNested(old(content), outer, inner, v)
    {
      if outer in content {
        if !content[outer].Object? {
          return true;
        }
        content := content[outer := Object(content[outer].fields[inner := v])];
      } else {
        content := content[outer := Object(map[inner := v])];
      }
      return false;
    }

    method RemoveNestedField(outer: string, inner: string)
      modifies this
      ensures content == WithoutNested(old(content), outer, inner)
    {
      if outer in content && content[outer].Object? {
        content := content[outer := Object(content[outer].fields - {inner})];
      }
    }

    /** `SetUID` and its like. */
    method SetMetaText(key: string, s: string)
      modifies this
      ensures content == PutMeta(old(content), key, TextField(s))
    {
      if |s| == 0 {
        RemoveNestedField("metadata", key);
        return;
      }
      var _ := SetNestedField(Str(s), "metadata", key);
    }

    method SetGeneration(generation: Int64)
      modifies this
      ensures content == PutMeta(old(content), "generation", NumberField(generation))
    {
      if generation == 0 {
        RemoveNestedField("metadata", "generation");
        return;
      }
      var _ := SetNestedField(Number(generation), "metadata", "generation");
    }

    /** `SetAnnotations` and `SetLabels` on a map that is not nil. */
    method SetStrings(key: string, m: map<string, string>)
      modifies this
      ensures content == PutMeta(old(content), key, Some(FromStrings(m)))
    {
      var _ := SetNestedField(FromStrings(m), "metadata", key);
    }
  }

  // ----- laws -----

  /** The metadata can be written to: it is missing, or an object. */
  predicate MetaOk(c: Fields) {
    METADATA in c ==> c[METADATA].Object?
  }

  /** What the setters write, the getters read; everything else stays, and so does metadata that is no object. */
  lemma PutThenRead(c: Fields, key: string, v: Option<Json>)
    ensures MetaOk(PutMeta(c, key, v)) <==> MetaOk(c)
    ensures MetaOk(c) ==> Nested(PutMeta(c, key, v), METADATA, key) == if v.Some? then Value(v.value) else Missing
    ensures !MetaOk(c) ==> PutMeta(c, key, v) == c
    ensures forall other :: other != key ==> Nested(PutMeta(c, key, v), METADATA, other) == Nested(c, METADATA, other)
  {
  }

  lemma StringsRoundTrip(c: Fields, key: string, m: map<string, string>)
    ensures Strings(PutMeta(c, key, Some(FromStrings(m))), key) == if MetaOk(c) then m else map[]
  {
  }
}
