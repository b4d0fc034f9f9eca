/** JSON values, their printing and their comparison. */
module JsonValue {
  import opened JsonText
  import opened Numerals

  /**
   A JSON value.  The members of an object are listed in the order of its map.
   A floating-point number is represented by its text and not looked into.
   */
  datatype Json =
    | Null
    | Boolean(b: bool)
    | Str(s: string)
    | Integer(n: int)
    | Unsigned(u: nat)
    | Float(text: string)
    | Array(elements: seq<Json>)
    | Object(members: seq<(string, Json)>)

  const I64_MAX: int := 0x7FFF_FFFF_FFFF_FFFF
  const U64_MAX: nat := 0xFFFF_FFFF_FFFF_FFFF

  /** `operator<` of strings. */
  predicate Less(a: string, b: string) {
    b != "" && (a == "" || a[0] < b[0] || (a[0] == b[0] && Less(a[1..], b[1..])))
  }

  predicate Sorted(ms: seq<(string, Json)>) { forall i, j :: 0 <= i < j < |ms| ==> Less(ms[i].0, ms[j].0) }

  /** A value without floats whose numbers fit their types and whose objects are maps. */
  predicate Exact(j: Json) {
    match j
    case Integer(n) => -I64_MAX - 1 <= n <= I64_MAX
    case Unsigned(u) => u <= U64_MAX
    case Float(_) => false
    case Array(es) => forall i :: 0 <= i < |es| ==> Exact(es[i])
    case Object(ms) => Sorted(ms) && forall i :: 0 <= i < |ms| ==> Exact(ms[i].1)
    case _ => true
  }

  /* ---- comparison ----------------------------------------------------- */

  /** `static_cast<int64_t>` of an unsigned number. */
  function ToSigned(u: nat): int { if u > I64_MAX then u - 0x1_0000_0000_0000_0000 else u }

  /** `operator==`, on values without floats. */
  predicate Equal(a: Json, b: Json)
    decreases a
  {
    match (a, b)
    case (Array(x), Array(y)) => |x| == |y| && forall i :: 0 <= i < |x| ==> Equal(x[i], y[i])
    case (Object(x), Object(y)) =>
      |x| == |y| && forall i :: 0 <= i < |x| ==> x[i].0 == y[i].0 && Equal(x[i].1, y[i].1)
    case (Unsigned(u), Integer(n)) => ToSigned(u) == n
    case (Integer(n), Unsigned(u)) => n == ToSigned(u)
    case _ => a == b
  }

  /* ---- printing ------------------------------------------------------- */

  function Spaces(n: nat): string { seq(n, _ => ' ') }

  function IntegerText(n: int): string { if n < 0 then "-" + ToDecimal(-n) else ToDecimal(n) }

  /** The indentation inside an array or object. */
  function Deeper(pretty: bool, step: nat, indent: nat): nat { if pretty then indent + step else indent }

  function Break(pretty: bool): string { if pretty then "\n" else "" }

  /** `dump`: compact, or pretty with `step` more spaces per level. */
  function Dump(j: Json, pretty: bool, step: nat, indent: nat): string
    decreases j, if j.Array? then |j.elements| + 1 else if j.Object? then |j.members| + 1 else 0
  {
    match j
    case Null => "null"
    case Boolean(b) => if b then "true" else "false"
    case Str(s) => "\"" + Escape(s) + "\""
    case Integer(n) => IntegerText(n)
    case Unsigned(u) => ToDecimal(u)
    case Float(text) => text
    case Array(es) =>
      if es == [] then "[]"
      else
        "[" + Break(pretty) + DumpElements(j, 0, pretty, step, Deeper(pretty, step, indent))
        + (Break(pretty) + Spaces(indent) + "]")
    case Object(ms) =>
      if ms == [] then "{}"
      else
        "{" + Break(pretty) + DumpMembers(j, 0, pretty, step, Deeper(pretty, step, indent))
        + (Break(pretty) + Spaces(indent) + "}")
  }

  /** The elements from `i` on, separated. */
  function DumpElements(j: Json, i: nat, pretty: bool, step: nat, indent: nat): string
    requires j.Array? && i < |j.elements|
    decreases j, |j.elements| - i
  {
    Spaces(indent) + Dump(j.elements[i], pretty, step, indent)
    + (if i + 1 < |j.elements| then "," + Break(pretty) + DumpElements(j, i + 1, pretty, step, indent) else "")
  }

  function DumpMembers(j: Json, i: nat, pretty: bool, step: nat, indent: nat): string
    requires j.Object? && i < |j.members|
    decreases j, |j.members| - i
  {
    Spaces(indent) + MemberText(j.members[i].0, pretty) + Dump(j.members[i].1, pretty, step, indent)
    + (if i + 1 < |j.members| then "," + Break(pretty) + DumpMembers(j, i + 1, pretty, step, indent) else "")
  }

  /** A key and the colon. */
  function MemberText(key: string, pretty: bool): string {
    "\"" + Escape(key) + "\":" + (if pretty then " " else "")
  }
}
