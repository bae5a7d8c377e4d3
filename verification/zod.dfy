/**
 * The part of Zod the form schemas use. A parse either aborts (a value of
 * the wrong type, a missing required field, a value outside an enum) or
 * goes on "dirty" (a length or range check failed); an object collects the
 * issues of all its fields in order, and a refinement on the object runs
 * only when no field aborted. An outcome is its issue paths, in order.
 */
module Zod {
  import opened Strings

  /** A JavaScript value as a form hands it to a schema. */
  datatype Value = Str(s: string) | Num(n: int) | Bool(b: bool) | Absent

  /** The paths of the issues found, and whether parsing aborted. */
  datatype Outcome = Outcome(aborted: bool, issues: seq<string>)

  /** Every aborted outcome carries an issue. */
  predicate Sound(o: Outcome) {
    o.aborted ==> o.issues != []
  }

  predicate Passed(o: Outcome) {
    o.issues == []
  }

  function Clean(): Outcome {
    Outcome(false, [])
  }

  function Abort(path: string): Outcome {
    Outcome(true, [path])
  }

  /** Two checks of one object, their issues in order. */
  function Also(a: Outcome, b: Outcome): (o: Outcome)
    ensures o.aborted <==> a.aborted || b.aborted
    ensures Passed(o) <==> Passed(a) && Passed(b)
    ensures o.issues == a.issues + b.issues
    ensures Sound(a) && Sound(b) ==> Sound(o)
  {
    Outcome(a.aborted || b.aborted, a.issues + b.issues)
  }

  /** `.refine(check, { path })` on an object: skipped when the object aborted. */
  function Refine(o: Outcome, holds: bool, path: string): (r: Outcome)
    ensures r.aborted == o.aborted
    ensures o.aborted || holds ==> r == o
    ensures !o.aborted && !holds ==> r.issues == o.issues + [path]
  {
    if o.aborted || holds then o else Outcome(false, o.issues + [path])
  }

  /**
   * `z.string().min(n)` followed by one more string check (`.url()`,
   * `.email()`) that holds when `extra` does; `true` for none. Both checks
   * run and report.
   */
  function StringMin(path: string, v: Value, min: nat, extra: bool): (o: Outcome)
    ensures Sound(o)
    ensures Passed(o) <==> v.Str? && Utf16Length(v.s) >= min && extra
  {
    match v
    case Str(s) => Outcome(false, (if Utf16Length(s) < min then [path] else []) + (if extra then [] else [path]))
    case _ => Abort(path)
  }

  /** `z.string().optional()`. */
  function OptionalString(path: string, v: Value): (o: Outcome)
    ensures Sound(o)
    ensures Passed(o) <==> v.Str? || v.Absent?
  {
    if v.Str? || v.Absent? then Clean() else Abort(path)
  }

  /** `z.enum([...])`: a string among the options. */
  function Enum(path: string, v: Value, options: set<string>): (o: Outcome)
    ensures Sound(o)
    ensures Passed(o) <==> v.Str? && v.s in options
  {
    if v.Str? && v.s in options then Clean() else Abort(path)
  }

  /** `z.number().min(n)`, optional (or with a default) when `optional`. */
  function NumberMin(path: string, v: Value, min: int, optional: bool): (o: Outcome)
    ensures Sound(o)
    ensures Passed(o) <==> (v.Num? && v.n >= min) || (v.Absent? && optional)
  {
    match v
    case Num(n) => if n < min then Outcome(false, [path]) else Clean()
    case Absent => if optional then Clean() else Abort(path)
    case _ => Abort(path)
  }

  /** `z.number().optional()`. */
  function OptionalNumber(path: string, v: Value): (o: Outcome)
    ensures Sound(o)
    ensures Passed(o) <==> v.Num? || v.Absent?
  {
    if v.Num? || v.Absent? then Clean() else Abort(path)
  }

  /** `z.boolean().default(...)`: a boolean or nothing. */
  function BooleanOrAbsent(path: string, v: Value): (o: Outcome)
    ensures Sound(o)
    ensures Passed(o) <==> v.Bool? || v.Absent?
  {
    if v.Bool? || v.Absent? then Clean() else Abort(path)
  }

  /** `Boolean(v)`: JavaScript truthiness. */
  predicate Truthy(v: Value) {
    match v
    case Str(s) => s != ""
    case Num(n) => n != 0
    case Bool(b) => b
    case Absent => false
  }
}
