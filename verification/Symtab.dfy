/** Symbol lookup by name (nuttx/binfmt): the binary search of symtab_findorderedbyname.c
    against the linear search of symtab_findbyname.c. */
module Symtab {
  import opened Common
  import opened Strings

  datatype Symbol = Symbol(name: string, value: int)

  /** The table is strictly ordered by strcmp. */
  ghost predicate Ordered(table: seq<Symbol>) {
    forall i, j | 0 <= i < j < |table| :: Lt(table[i].name, table[j].name)
  }

  /** r is the place of the name in the table, the first one if it occurs more than once. */
  ghost predicate Finds(table: seq<Symbol>, name: string, r: Option<nat>) {
    match r
    case None => forall i | 0 <= i < |table| :: table[i].name != name
    case Some(k) => k < |table| && table[k].name == name && forall i | 0 <= i < k :: table[i].name != name
  }

  /** symtab_findbyname. */
  method FindByName(table: seq<Symbol>, name: string) returns (r: Option<nat>)
    ensures Finds(table, name, r)
  {
    for i := 0 to |table|
      invariant forall k | 0 <= k < i :: table[k].name != name
    {
      if table[i].name == name {
        return Some(i);
      }
    }
    r := None;
  }

  /** There is one answer only. */
  lemma FindsIsUnique(table: seq<Symbol>, name: string, r: Option<nat>, q: Option<nat>)
    requires Finds(table, name, r) && Finds(table, name, q)
    ensures r == q
  {
  }

  /** symtab_findorderedbyname, on a table that is not empty: every entry it returns has the name,
      whatever the order, and on an ordered table it agrees with the linear search, also when
      the range ends with high == low - 1. */
  method FindOrderedByName(table: seq<Symbol>, name: string) returns (r: Option<nat>)
    requires |table| > 0
    ensures r.Some? ==> r.value < |table| && table[r.value].name == name
    ensures Ordered(table) ==> Finds(table, name, r)
  {
    LtIsStrictTotalOrder();
    var low, high := 0, |table| - 1;
    while low < high
      invariant 0 <= low < |table| && low - 1 <= high < |table|
      invariant Ordered(table) ==> forall i | 0 <= i < low :: Lt(table[i].name, name)
      invariant Ordered(table) ==> forall i | high < i < |table| :: Lt(name, table[i].name)
    {
      var mid := (low + high) / 2;
      if Lt(name, table[mid].name) {
        high := mid - 1;
      } else if Lt(table[mid].name, name) {
        low := mid + 1;
      } else {
        return Some(mid);
      }
    }
    r := if table[low].name == name then Some(low) else None;
  }
}
