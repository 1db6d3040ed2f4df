/** Table constraints as properties: reading them, and numbering a new one by compare-and-set. */
module Constraints {
  import opened Wrappers

  const PREFIX := "table.constraint."
  const ALLOCATION_ATTEMPTS: nat := 5
  const INT32_LIMIT := 0x8000_0000

  type Properties = map<string, string>

  datatype Constraint = Constraint(className: string, number: nat)

  // ---- Numbers in property names ----

  predicate IsDigit(c: char) {
    '0' <= c <= '9'
  }

  function DigitValue(c: char): (value: nat)
    requires IsDigit(c)
    ensures value < 10
  {
    c as int - '0' as int
  }

  /** The value of a digit string, or nothing if some character is not a digit. */
  function DigitsValue(s: string): Option<nat> {
    if s == [] then Some(0)
    else
      match DigitsValue(s[..|s| - 1])
      case None => None
      case Some(high) =>
        var last := s[|s| - 1];
        if IsDigit(last) then Some(10 * high + DigitValue(last)) else None
  }

  /** strconv.ParseInt in base 10 for 32 bits: an optional sign, then at least one digit. */
  function ParseInt32(s: string): Option<int> {
    var signed := s != [] && (s[0] == '+' || s[0] == '-');
    var digits := if signed then s[1..] else s;
    if digits == [] then None
    else
      match DigitsValue(digits)
      case None => None
      case Some(n) =>
        var value: int := n;
        if signed && s[0] == '-' then (if value <= INT32_LIMIT then Some(-value) else None)
        else if value < INT32_LIMIT then Some(value)
        else None
  }

  function Digit(d: nat): (c: char)
    requires d < 10
    ensures IsDigit(c) && DigitValue(c) == d
  {
    ('0' as int + d) as char
  }

  /** strconv.FormatInt in base 10. */
  function FormatInt(n: nat): (s: string)
    ensures s != [] && IsDigit(s[0])
  {
    if n < 10 then [Digit(n)] else FormatInt(n / 10) + [Digit(n % 10)]
  }

  lemma {:induction false} FormattedDigits(n: nat)
    ensures DigitsValue(FormatInt(n)) == Some(n)
  {
    hide DigitsValue;
    if n < 10 {
      DigitsSnoc([], Digit(n));
      assert FormatInt(n) == [] + [Digit(n)];
    } else {
      FormattedDigits(n / 10);
      DigitsSnoc(FormatInt(n / 10), Digit(n % 10));
    }
  }

  lemma DigitsSnoc(s: string, c: char)
    requires IsDigit(c)
    ensures DigitsValue(s + [c])
            == match DigitsValue(s) case None => None case Some(high) => Some(10 * high + DigitValue(c))
    ensures DigitsValue([]) == Some(0)
  {
    assert (s + [c])[..|s|] == s;
  }

  /** A formatted number reads back as itself. */
  lemma FormatParses(n: nat)
    requires n < INT32_LIMIT
    ensures ParseInt32(FormatInt(n)) == Some(n)
  {
    FormattedDigits(n);
  }

  lemma {:induction false} LeadingZero(s: string)
    ensures DigitsValue("0" + s) == DigitsValue(s)
  {
    if s == [] {
      assert ("0" + s)[..0] == [];
    } else {
      LeadingZero(s[..|s| - 1]);
      assert ("0" + s)[..|s|] == "0" + s[..|s| - 1];
    }
  }

  function Zeros(count: nat): string {
    if count == 0 then "" else "0" + Zeros(count - 1)
  }

  /** The number with zeros in front of it, and a plus sign before those. */
  function Spelling(plus: bool, zeros: nat, n: nat): string {
    (if plus then "+" else "") + (Zeros(zeros) + FormatInt(n))
  }

  lemma {:induction false} ZerosAddNothing(count: nat, s: string)
    ensures DigitsValue(Zeros(count) + s) == DigitsValue(s)
  {
    hide DigitsValue;
    if count == 0 {
      assert Zeros(count) + s == s;
    } else {
      ZerosAddNothing(count - 1, s);
      LeadingZero(Zeros(count - 1) + s);
      assert Zeros(count) + s == "0" + (Zeros(count - 1) + s);
    }
  }

  lemma DigitIsUnique(c: char)
    requires IsDigit(c)
    ensures Digit(DigitValue(c)) == c
  {
  }

  /** A digit string without a leading zero is the formatted number it stands for. */
  lemma {:induction false} DigitsAreFormatted(s: string, n: nat)
    requires s != [] && s[0] != '0' && DigitsValue(s) == Some(n)
    ensures n >= 1 && s == FormatInt(n)
  {
    hide Digit;
    var front, last := s[..|s| - 1], s[|s| - 1];
    assert s == front + [last];
    DigitIsUnique(last);
    if front != [] {
      DigitsAreFormatted(front, DigitsValue(front).value);
    }
  }

  /** Any digit string of a positive number is that number with zeros in front. */
  lemma {:induction false} DigitsSpell(s: string, n: nat) returns (zeros: nat)
    requires n >= 1 && DigitsValue(s) == Some(n)
    ensures s == Zeros(zeros) + FormatInt(n)
  {
    if s[0] == '0' {
      assert s == "0" + s[1..];
      LeadingZero(s[1..]);
      var fewer := DigitsSpell(s[1..], n);
      zeros := fewer + 1;
    } else {
      DigitsAreFormatted(s, n);
      zeros := 0;
      assert Zeros(0) + FormatInt(n) == FormatInt(n);
    }
  }

  lemma SpellingStarts(zeros: nat, n: nat)
    ensures var s := Zeros(zeros) + FormatInt(n);
            s != [] && IsDigit(s[0]) && (zeros > 0 ==> s[0] == '0')
  {
    if zeros == 0 { assert Zeros(zeros) + FormatInt(n) == FormatInt(n); }
  }

  /** The suffixes that carry a positive number: its digits, after any zeros and an optional plus sign. */
  lemma SpellingsOf(s: string, n: nat)
    requires n >= 1
    ensures ParseInt32(s) == Some(n) <==> n < INT32_LIMIT && exists plus, zeros :: s == Spelling(plus, zeros, n)
  {
    hide FormatInt, DigitsValue, Spelling, ParseInt32;
    if ParseInt32(s) == Some(n) { ParsedIsSpelling(s, n); }
    if plus, zeros :| s == Spelling(plus, zeros, n) { SpellingParses(plus, zeros, n); }
  }

  lemma ParsedIsSpelling(s: string, n: nat)
    requires n >= 1 && ParseInt32(s) == Some(n)
    ensures n < INT32_LIMIT && exists plus, zeros :: s == Spelling(plus, zeros, n)
  {
    hide FormatInt, DigitsValue, Zeros;
    var plus := s[0] == '+';
    var digits := if plus then s[1..] else s;
    assert s == (if plus then "+" else "") + digits;
    var zeros := DigitsSpell(digits, n);
    assert s == Spelling(plus, zeros, n);
  }

  lemma SpellingParses(plus: bool, zeros: nat, n: nat)
    ensures ParseInt32(Spelling(plus, zeros, n)) == if n < INT32_LIMIT then Some(n) else None
  {
    hide FormatInt, DigitsValue, Zeros;
    var s, digits := Spelling(plus, zeros, n), Zeros(zeros) + FormatInt(n);
    ZerosAddNothing(zeros, FormatInt(n));
    FormattedDigits(n);
    SpellingStarts(zeros, n);
    assert plus ==> s[0] == '+' && s[1..] == digits;
    assert !plus ==> s == digits;
  }

  /** Two different spellings of a number can stand side by side. */
  lemma OtherSpellings(n: nat)
    requires 1 <= n < INT32_LIMIT
    ensures ParseInt32("+" + FormatInt(n)) == Some(n) && ParseInt32("0" + FormatInt(n)) == Some(n)
  {
    assert "+" + FormatInt(n) == Spelling(true, 0, n) by {
      assert Zeros(0) + FormatInt(n) == FormatInt(n);
    }
    assert "0" + FormatInt(n) == Spelling(false, 1, n) by {
      assert Zeros(1) == "0" + Zeros(0) == "0";
      assert "" + ("0" + FormatInt(n)) == "0" + FormatInt(n);
    }
    SpellingsOf("+" + FormatInt(n), n);
    SpellingsOf("0" + FormatInt(n), n);
  }

  predicate PlainSuffix(s: string) {
    s != "" && s[0] != '+' && s[0] != '0'
  }

  /** Without a plus sign or a leading zero, a number is only spelt the way it is formatted. */
  lemma PlainSpellingIsFormatted(s: string, n: nat)
    requires n >= 1 && PlainSuffix(s)
    ensures ParseInt32(s) == Some(n) <==> n < INT32_LIMIT && s == FormatInt(n)
  {
    SpellingsOf(s, n);
    forall plus, zeros | s == Spelling(plus, zeros, n) ensures s == FormatInt(n) {
      SpellingStarts(zeros, n);
      assert s == (if plus then "+" else "") + (Zeros(zeros) + FormatInt(n));
      assert zeros == 0 ==> Zeros(zeros) + FormatInt(n) == FormatInt(n);
    }
    if s == FormatInt(n) {
      assert s == Spelling(false, 0, n) by {
        assert "" + (Zeros(0) + FormatInt(n)) == FormatInt(n);
      }
    }
  }

  function PropertyOf(number: nat): string {
    PREFIX + FormatInt(number)
  }

  // ---- The constraints a set of properties installs ----

  /** The number a property installs its class under, if it installs one. */
  function NumberIn(property: string, className: string): Option<nat> {
    if !(PREFIX <= property) || className == "" then None
    else
      var number := ParseInt32(property[|PREFIX|..]);
      if number.Some? && number.value >= 1 then Some(number.value) else None
  }

  /** Among properties spelt without a plus sign or leading zero, a number has exactly one: the one that
      installing a constraint under it writes. */
  lemma PlainPropertyIsUnique(property: string, className: string, n: nat)
    requires PREFIX <= property && PlainSuffix(property[|PREFIX|..]) && className != ""
    ensures NumberIn(property, className) == Some(n) <==> 1 <= n < INT32_LIMIT && property == PropertyOf(n)
  {
    var suffix := property[|PREFIX|..];
    assert property == PREFIX + suffix && PropertyOf(n)[|PREFIX|..] == FormatInt(n);
    if n >= 1 { PlainSpellingIsFormatted(suffix, n); }
  }

  /** Some property installs the class under the number. */
  ghost predicate Installs(properties: Properties, className: string, number: nat) {
    exists p :: p in properties && properties[p] == className && NumberIn(p, className) == Some(number)
  }

  function InsertConstraint(list: seq<Constraint>, c: Constraint): seq<Constraint> {
    if list == [] then [c]
    else
      var front, last := list[..|list| - 1], list[|list| - 1];
      if c.number < last.number then InsertConstraint(front, c) + [last] else list + [c]
  }

  ghost predicate ByNumber(list: seq<Constraint>) {
    forall i, j :: 0 <= i < j < |list| ==> list[i].number <= list[j].number
  }

  lemma {:induction false} InsertConstraintSorts(list: seq<Constraint>, c: Constraint)
    requires ByNumber(list)
    ensures ByNumber(InsertConstraint(list, c))
    ensures forall x :: x in InsertConstraint(list, c) <==> x in list || x == c
    ensures |InsertConstraint(list, c)| == |list| + 1
  {
    if list != [] {
      var front, last := list[..|list| - 1], list[|list| - 1];
      assert list == front + [last];
      if c.number < last.number {
        InsertConstraintSorts(front, c);
        var inner := InsertConstraint(front, c);
        forall i | 0 <= i < |inner| ensures inner[i].number <= last.number {
          assert inner[i] in inner;
        }
      }
    }
  }

  /** parseConstraints: properties come in any order; the list comes out by number. */
  method ParseConstraints(properties: Properties) returns (constraints: seq<Constraint>)
    ensures ByNumber(constraints) && |constraints| <= |properties|
    ensures forall c :: c in constraints <==> Installs(properties, c.className, c.number)
  {
    constraints := [];
    var left := properties.Keys;
    assert |left| == |properties|;
    while left != {}
      invariant left <= properties.Keys && ByNumber(constraints) && |constraints| + |left| <= |properties|
      invariant forall c :: c in constraints ==> Installs(properties, c.className, c.number)
      invariant forall p :: p in properties && p !in left && NumberIn(p, properties[p]).Some? ==>
                  Constraint(properties[p], NumberIn(p, properties[p]).value) in constraints
      decreases |left|
    {
      var property :| property in left;
      left := left - {property};
      var number := NumberIn(property, properties[property]);
      if number.Some? {
        var c := Constraint(properties[property], number.value);
        InsertConstraintSorts(constraints, c);
        constraints := InsertConstraint(constraints, c);
      }
    }
  }

  /** constraintNumberOf: the least number the class is installed under. */
  method ConstraintNumberOf(installed: seq<Constraint>, className: string) returns (number: Option<nat>)
    requires ByNumber(installed)
    ensures number.None? ==> forall c :: c in installed ==> c.className != className
    ensures number.Some? ==> Constraint(className, number.value) in installed
    ensures number.Some? ==> forall c :: c in installed && c.className == className ==> number.value <= c.number
  {
    for i := 0 to |installed|
      invariant forall j :: 0 <= j < i ==> installed[j].className != className
    {
      if installed[i].className == className { return Some(installed[i].number); }
    }
    return None;
  }

  // ---- The least free number ----

  ghost predicate LeastFree(used: set<nat>, number: nat) {
    number >= 1 && number !in used && forall m :: 1 <= m < number ==> m in used
  }

  function Numbers(installed: seq<Constraint>): set<nat> {
    set c | c in installed :: c.number
  }

  /** nextConstraintNumber: found within one step more than there are constraints. */
  method NextConstraintNumber(installed: seq<Constraint>) returns (number: nat)
    ensures LeastFree(Numbers(installed), number)
    ensures number <= |installed| + 1
  {
    var used: set<nat> := {};
    for i := 0 to |installed|
      invariant used == Numbers(installed[..i])
      invariant |used| <= i
    {
      assert installed[..i + 1] == installed[..i] + [installed[i]];
      used := used + {installed[i].number};
    }
    assert installed[..|installed|] == installed;
    number := 1;
    Consecutive(used, 0);
    while number in used
      invariant number >= 1 && forall m :: 1 <= m < number ==> m in used
      invariant number <= |used| + 1
      decreases |used| + 1 - number
    {
      Consecutive(used, number);
      number := number + 1;
    }
  }

  lemma {:induction false} Consecutive(used: set<nat>, n: nat)
    requires forall m :: 1 <= m <= n ==> m in used
    ensures n <= |used|
  {
    if n > 0 {
      assert used == (used - {n}) + {n};
      Consecutive(used - {n}, n - 1);
    }
  }

  /** mergeProperties. */
  method MergeProperties(base: Properties, overlay: Properties) returns (merged: Properties)
    ensures merged == base + overlay
  {
    merged := base;
    var left := overlay.Keys;
    while left != {}
      invariant left <= overlay.Keys
      invariant merged.Keys == base.Keys + (overlay.Keys - left)
      invariant forall p :: p in merged ==> merged[p] == if p in overlay && p !in left then overlay[p] else base[p]
      decreases |left|
    {
      var property :| property in left;
      left := left - {property};
      merged := merged[property := overlay[property]];
    }
  }
}
