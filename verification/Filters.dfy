/** The row filter. */
module Filters {
  import opened Wrappers
  import opened Values

  /** A predicate tree. A leaf tests the stored value of one field, or of two; a missing field and
      a null one look the same. */
  datatype Filter =
    | Always(keep: bool)
    | One(field: string, test: Option<Cell> -> bool)
    | Two(fieldA: string, fieldB: string, compare: (Option<Cell>, Option<Cell>) -> bool)
    | And(left: Filter, right: Filter)
    | Or(left: Filter, right: Filter)
    | Not(inner: Filter)

  type Row = map<string, Option<Cell>>

  function CellOf(row: Row, name: string): Option<Cell> { if name in row then row[name] else None }

  /** Filter names go through the rename map too. */
  function Resolve(field: string, fieldMap: map<string, string>): string {
    if field in fieldMap then fieldMap[field] else field
  }

  predicate Check(f: Filter, row: Row, fieldMap: map<string, string>) {
    match f
    case Always(keep) => keep
    case One(field, test) => test(CellOf(row, Resolve(field, fieldMap)))
    case Two(a, b, compare) => compare(CellOf(row, Resolve(a, fieldMap)), CellOf(row, Resolve(b, fieldMap)))
    case And(left, right) => Check(left, row, fieldMap) && Check(right, row, fieldMap)
    case Or(left, right) => Check(left, row, fieldMap) || Check(right, row, fieldMap)
    case Not(inner) => !Check(inner, row, fieldMap)
  }

  ghost predicate SameCells(a: Row, b: Row) { forall name: string :: CellOf(a, name) == CellOf(b, name) }

  /** A missing field is a null one. */
  lemma {:induction false} MissingIsNull(f: Filter, a: Row, b: Row, fieldMap: map<string, string>)
    requires SameCells(a, b)
    ensures Check(f, a, fieldMap) == Check(f, b, fieldMap)
  {
    match f
    case Always(_) =>
    case One(field, _) =>
      assert CellOf(a, Resolve(field, fieldMap)) == CellOf(b, Resolve(field, fieldMap));
    case Two(fieldA, fieldB, _) =>
      assert CellOf(a, Resolve(fieldA, fieldMap)) == CellOf(b, Resolve(fieldA, fieldMap));
      assert CellOf(a, Resolve(fieldB, fieldMap)) == CellOf(b, Resolve(fieldB, fieldMap));
    case And(left, right) =>
      MissingIsNull(left, a, b, fieldMap);
      MissingIsNull(right, a, b, fieldMap);
    case Or(left, right) =>
      MissingIsNull(left, a, b, fieldMap);
      MissingIsNull(right, a, b, fieldMap);
    case Not(inner) => MissingIsNull(inner, a, b, fieldMap);
  }
}
