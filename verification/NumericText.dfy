/** compareNumericText of src/aruba-inbound.ts, and what it takes for it to order strings. */
module NumericText {
  import opened Numerals

  /** Italian collation, as String.prototype.localeCompare sees it; taken from outside. */
  type Collator = (string, string) -> int

  function CompareNumericText(collate: Collator, left: string, right: string): int {
    if IsNumeral(left) && IsNumeral(right)
    then (if Value(left) < Value(right) then -1 else if Value(left) > Value(right) then 1 else 0)
    else collate(left, right)
  }

  /** How far apart two texts are: as numbers if both are digits, and by collation otherwise. */
  function Apart(collate: Collator, left: string, right: string): int {
    if !IsNumeral(left) || !IsNumeral(right) then collate(left, right) else Value(left) - Value(right)
  }

  /** The smaller of two numbers comes first. */
  lemma ComparesAsApart(collate: Collator, left: string, right: string)
    ensures CompareNumericText(collate, left, right) < 0 <==> Apart(collate, left, right) < 0
    ensures CompareNumericText(collate, left, right) == 0 <==> Apart(collate, left, right) == 0
    ensures IsNumeral(left) && IsNumeral(right) ==>
              (CompareNumericText(collate, left, right) < 0 <==> Value(left) < Value(right)) &&
              (CompareNumericText(collate, left, right) > 0 <==> Value(left) > Value(right))
  {
    hide Value;
  }

  /** The comparator is a total preorder on `s`. */
  ghost predicate Consistent<T(!new)>(compare: (T, T) -> int, s: set<T>) {
    (forall x, y :: x in s && y in s ==> (compare(x, y) < 0 <==> compare(y, x) > 0)) &&
    forall x, y, z :: x in s && y in s && z in s && compare(x, y) <= 0 && compare(y, z) <= 0 ==> compare(x, z) <= 0
  }

  function NumericComparer(collate: Collator): (string, string) -> int {
    (a: string, b: string) => CompareNumericText(collate, a, b)
  }

  /** On digits it always is one, whatever the collation. */
  lemma NumeralsAreConsistent(collate: Collator, s: set<string>)
    requires forall x :: x in s ==> IsNumeral(x)
    ensures Consistent(NumericComparer(collate), s)
  {
    assert forall x, y :: x in s && y in s ==> NumericComparer(collate)(x, y) == CompareNumericText(collate, x, y);
  }

  /** Numerals tie only when they are one number; without leading zeros, when they are one numeral. */
  lemma NumeralsTie(collate: Collator, x: string, y: string)
    requires IsNumeral(x) && IsNumeral(y)
    ensures CompareNumericText(collate, x, y) == 0 <==> Value(x) == Value(y)
    ensures IsCanonical(x) && IsCanonical(y) && CompareNumericText(collate, x, y) == 0 ==> x == y
  {
    if IsCanonical(x) && IsCanonical(y) && Value(x) == Value(y) {
      CanonicalIsInjective(x, y);
    }
  }
}
