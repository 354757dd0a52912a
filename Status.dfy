/**
 * The trip status enum (app/Enums/Status.php): a string-backed enum with a
 * label and a colour for display.
 *
 * The enum declares three cases. The status derivation of a trip also needs a
 * fourth one, Cancelled, which the enum does not declare; the datatype below
 * has all four so that the corrected derivation is total, and `Declared()`
 * tells the three declared cases apart from it. The backing value, label and
 * colour exist only for declared cases, exactly as the three-arm matches do.
 */
module Statuses {
  import opened Wrappers

  datatype Status = Scheduled | Active | Completed | Cancelled {
    /** Whether the enum declares this case. */
    predicate Declared() {
      !Cancelled?
    }
  }

  /** The cases the enum declares, in declaration order (`Status::cases()`). */
  function Cases(): (r: seq<Status>)
    ensures |r| == 3
    ensures forall s :: s in r <==> s.Declared()
    ensures forall i, j :: 0 <= i < j < |r| ==> r[i] != r[j]
  {
    [Scheduled, Active, Completed]
  }

  /** The backing string of a declared case. */
  function Value(s: Status): string
    requires s.Declared()
  {
    match s
    case Scheduled => "scheduled"
    case Active => "active"
    case Completed => "completed"
  }

  /** `Status::tryFrom`: the declared case backed by `v`, if there is one. */
  function TryFrom(v: string): (r: Option<Status>)
    ensures r.Some? ==> r.value.Declared() && Value(r.value) == v
    ensures r.None? <==> forall s: Status :: s.Declared() ==> Value(s) != v
  {
    if v == "scheduled" then Some(Scheduled)
    else if v == "active" then Some(Active)
    else if v == "completed" then Some(Completed)
    else None
  }

  /** Upper-cases an ASCII lower-case letter and leaves every other character alone. */
  function UpperAscii(c: char): char {
    if 'a' <= c <= 'z' then (c as int - 'a' as int + 'A' as int) as char else c
  }

  /** The string with its first character upper-cased. */
  function Capitalized(v: string): string {
    if v == [] then [] else [UpperAscii(v[0])] + v[1..]
  }

  /** The label shown for a declared case: its backing value, capitalised. */
  function Label(s: Status): (l: string)
    requires s.Declared()
    ensures l == Capitalized(Value(s))
  {
    match s
    case Scheduled => "Scheduled"
    case Active => "Active"
    case Completed => "Completed"
  }

  /** The colour shown for a declared case. */
  function Color(s: Status): string
    requires s.Declared()
  {
    match s
    case Scheduled => "gray"
    case Active => "primary"
    case Completed => "success"
  }

  /** Every declared case survives the trip through its backing string. */
  lemma TryFromValue(s: Status)
    requires s.Declared()
    ensures TryFrom(Value(s)) == Some(s)
  {
  }

  /** Distinct declared cases have distinct values, labels and colours. */
  lemma DisplayDistinct(s: Status, t: Status)
    requires s.Declared() && t.Declared() && s != t
    ensures Value(s) != Value(t) && Label(s) != Label(t) && Color(s) != Color(t)
  {
  }

  /** The display table as the enum declares it. */
  lemma DisplayTable()
    ensures Label(Scheduled) == "Scheduled" && Color(Scheduled) == "gray"
    ensures Label(Active) == "Active" && Color(Active) == "primary"
    ensures Label(Completed) == "Completed" && Color(Completed) == "success"
  {
  }

  /** The string "cancelled" is not a backing value, and neither is an arbitrary one. */
  lemma UndeclaredStrings()
    ensures TryFrom("cancelled") == None
    ensures TryFrom("invalid") == None
    ensures !Cancelled.Declared() && Cancelled !in Cases()
  {
  }
}
