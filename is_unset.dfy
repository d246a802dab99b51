/** `isUnset`: whether a form value counts as empty. */
module IsUnset {
  import opened JsonValues
  import opened FillEmptyValues

  /** `null`/`undefined`, the empty string, and arrays and objects without
      elements or keys are unset; numbers and booleans never are. */
  function IsUnset(v: Json): (r: bool)
    ensures r <==> v in {Null, Undef, Str(""), Arr([]), Obj(map[])}
  {
    match v
    case Null => true
    case Undef => true
    case Str(s) => s == ""
    case Num(_) => false
    case Bool(_) => false
    case Arr(a) => |a| == 0
    case Obj(m) => |m| == 0
  }

  /** Replacing nullish values by `""` or `{}` keeping keys and lengths does
      not change whether a value is unset. */
  lemma SameShapeUnset(v: Json, f: Json)
    requires SameShape(v, f)
    ensures IsUnset(f) == IsUnset(v)
  {
    if v.Obj? {
      assert |f.fields| == |f.fields.Keys| && |v.fields| == |v.fields.Keys|;
    }
  }

  /** `fillEmptyValues` keeps every value's emptiness, both for the whole
      argument and for each entry it rewrites. */
  lemma FillKeepsUnset(v: Json)
    ensures IsUnset(Fill(v)) == IsUnset(v)
    ensures IsUnset(FillField(v)) == IsUnset(v)
  {
    SameShapeUnset(v, Fill(v));
    SameShapeUnset(v, FillField(v));
  }
}
