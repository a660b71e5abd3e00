/**
 SQL conditions over nullable columns (ISO/IEC 9075:1992, section 8.12): a comparison with NULL is
 unknown, a CHECK rejects a row only when its condition is false (section 11.9), and a WHERE clause
 selects a row only when its condition is true.
 */
module Sql {
  import opened Identity
  import opened Wrappers
  import Text

  datatype Truth = True | False | Unknown {
    function And(t: Truth): Truth {
      if this == False || t == False then False
      else if this == True && t == True then True
      else Unknown
    }

    function Or(t: Truth): Truth {
      if this == True || t == True then True
      else if this == False && t == False then False
      else Unknown
    }

    predicate CheckPasses() {
      this != False
    }

    predicate Selects() {
      this == True
    }
  }

  /** The value a nullable column holds in row i; a missing key is NULL. */
  function Cell<T>(column: map<Id, T>, i: Id): Option<T> {
    if i in column then Some(column[i]) else None
  }

  function Known(b: bool): Truth {
    if b then True else False
  }

  function IsNull<T>(x: Option<T>): Truth {
    Known(x.None?)
  }

  function NotNull<T>(x: Option<T>): Truth {
    Known(x.Some?)
  }

  function Eq<T(==)>(x: Option<T>, y: Option<T>): Truth {
    if x.None? || y.None? then Unknown else Known(x.value == y.value)
  }

  function Ne<T(==)>(x: Option<T>, y: Option<T>): Truth {
    if x.None? || y.None? then Unknown else Known(x.value != y.value)
  }

  function IsDistinctFrom<T(==)>(x: Option<T>, y: Option<T>): Truth {
    Known(x != y)
  }

  function In<T(==)>(x: Option<T>, values: set<T>): Truth {
    if x.None? then Unknown else Known(x.value in values)
  }

  function Ge(x: Option<int>, y: Option<int>): Truth {
    if x.None? || y.None? then Unknown else Known(x.value >= y.value)
  }

  function Gt(x: Option<int>, y: Option<int>): Truth {
    if x.None? || y.None? then Unknown else Known(x.value > y.value)
  }

  function Lt(x: Option<int>, y: Option<int>): Truth {
    if x.None? || y.None? then Unknown else Known(x.value < y.value)
  }

  /** `(a) = (b)` between two conditions. */
  function SameTruth(a: Truth, b: Truth): Truth {
    if a == Unknown || b == Unknown then Unknown else Known(a == b)
  }

  /** x ~ '^<prefix>[0-9a-f]{64}$' */
  function MatchesDigest(x: Option<string>, prefix: string): Truth {
    if x.None? then Unknown else Known(Text.IsDigest(x.value, prefix))
  }
}
