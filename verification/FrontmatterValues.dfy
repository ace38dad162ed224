/** YAML-compatible values as the workspace stores them, and the notes that carry them. */
module FrontmatterValues {
  import opened Integers

  /** A floating point number is its bit pattern. */
  type F64 = x: int | 0 <= x < 0x1_0000_0000_0000_0000

  /** All exponent bits set: an infinity or not a number. */
  predicate IsFinite(value: F64) {
    (value / 0x10_0000_0000_0000) % 0x800 != 0x7FF
  }

  /** Zero, one and the greatest numbers are finite; the infinities and a number that is none are not. */
  lemma FiniteNumbers()
    ensures IsFinite(0) && IsFinite(0x3FF0_0000_0000_0000)
    ensures IsFinite(0x7FEF_FFFF_FFFF_FFFF) && IsFinite(0xFFEF_FFFF_FFFF_FFFF)
    ensures !IsFinite(0x7FF0_0000_0000_0000) && !IsFinite(0xFFF0_0000_0000_0000) && !IsFinite(0x7FF8_0000_0000_0000)
  {
  }

  datatype FrontmatterValue =
    | Null
    | Bool(flag: bool)
    | Integer(integer: I64)
    | Float(float: F64)
    | Str(text: string)
    | Sequence(values: seq<FrontmatterValue>)
    | Mapping(entries: map<string, FrontmatterValue>)

  type Frontmatter = map<string, FrontmatterValue>

  /** A note as its readers see it. */
  datatype Note = Note(id: string, frontmatter: Frontmatter, body: string, path: string)

  /** `FrontmatterValue::validate`: no infinity and no NaN at any depth. */
  predicate Finite(value: FrontmatterValue) {
    match value
    case Float(f) => IsFinite(f)
    case Sequence(values) => forall i | 0 <= i < |values| :: Finite(values[i])
    case Mapping(entries) => forall k | k in entries :: Finite(entries[k])
    case _ => true
  }
}
