/** The active/inactive flag shared by products, categories and inventories. */
module ActivityStatuses {

  datatype ActivityStatus = ActivityStatus(status: bool) {

    predicate IsActive() {
      status
    }

    function ToString(): (s: string)
      ensures s == "Active" || s == "Inactive"
      ensures s == "Active" <==> IsActive()
    {
      if status then "Active" else "Inactive"
    }

    /** Active orders after inactive; equal flags compare as 0. */
    function CompareTo(o: ActivityStatus): (r: int)
      ensures -1 <= r <= 1
      ensures r == 0 <==> this == o
      ensures r > 0 <==> IsActive() && !o.IsActive()
    {
      if status && !o.status then 1
      else if !status && o.status then -1
      else 0
    }
  }

  const ACTIVE := ActivityStatus(true)
  const INACTIVE := ActivityStatus(false)

  /** The no-argument (persistence) constructor. */
  function Default(): (a: ActivityStatus)
    ensures !a.IsActive() && a == INACTIVE
  {
    ActivityStatus(false)
  }

  lemma CompareToAntisymmetric(a: ActivityStatus, b: ActivityStatus)
    ensures a.CompareTo(b) == -b.CompareTo(a)
  {
  }

  lemma CompareToTransitive(a: ActivityStatus, b: ActivityStatus, c: ActivityStatus)
    requires a.CompareTo(b) >= 0 && b.CompareTo(c) >= 0
    ensures a.CompareTo(c) >= 0
  {
  }
}

/**
 * Word: a name or keyword made of a letter followed by at least one letter,
 * ASCII digit, underscore or space.
 *
 * Which characters are Unicode letters (\p{L}) and the accent-stripping,
 * case-insensitive comparison of `sameAs` are parameters of the model.
 */
module Words {
  import opened Wrappers
  import Numbers

  /** Java's String.compareTo: the difference of the first differing characters, else of the lengths. */
  function StringCompare(a: string, b: string): int
    decreases |a|
  {
    if a == [] || b == [] then |a| - |b|
    else if a[0] != b[0] then a[0] as int - b[0] as int
    else StringCompare(a[1..], b[1..])
  }

  lemma {:induction false} StringCompareAntisymmetric(a: string, b: string)
    ensures StringCompare(a, b) == -StringCompare(b, a)
    decreases |a|
  {
    if a != [] && b != [] && a[0] == b[0] {
      StringCompareAntisymmetric(a[1..], b[1..]);
    }
  }

  lemma {:induction false} StringCompareZeroIffEqual(a: string, b: string)
    ensures StringCompare(a, b) == 0 <==> a == b
    decreases |a|
  {
    if a != [] && b != [] && a[0] == b[0] {
      StringCompareZeroIffEqual(a[1..], b[1..]);
      assert a == [a[0]] + a[1..];
      assert b == [b[0]] + b[1..];
    }
  }

  /** A proper prefix orders before the longer string. */
  lemma {:induction false} StringComparePrefix(a: string, b: string)
    requires |a| < |b| && a == b[..|a|]
    ensures StringCompare(a, b) < 0
    decreases |a|
  {
    if a != [] {
      assert a[0] == b[0];
      assert a[1..] == b[1..][..|a| - 1];
      StringComparePrefix(a[1..], b[1..]);
    }
  }

  lemma {:induction false} StringCompareTransitive(a: string, b: string, c: string)
    requires StringCompare(a, b) < 0 && StringCompare(b, c) < 0
    ensures StringCompare(a, c) < 0
    decreases |a|
  {
    if a != [] && b != [] && c != [] && a[0] == b[0] && b[0] == c[0] {
      StringCompareTransitive(a[1..], b[1..], c[1..]);
    }
  }

  predicate IsWordChar(c: char, isLetter: char -> bool) {
    isLetter(c) || Numbers.IsDigit(c) || c == '_' || c == ' '
  }

  /** The whole of s matches \p{L}[\p{L}\d_ ]+ . */
  predicate IsValid(s: string, isLetter: char -> bool) {
    |s| >= 2 && isLetter(s[0]) && forall i :: 1 <= i < |s| ==> IsWordChar(s[i], isLetter)
  }

  const INVALID_WORD := "Word cannot contain special characters but '_' or spaces, and must have at least two characters."

  /** The value of Word; `word` is None only for a row whose column is null. */
  datatype Word = Word(word: Option<string>) {

    function GetWord(): Option<string> {
      word
    }

    function ToString(): Option<string> {
      word
    }

    /** A null word orders before any non-null word; otherwise Java's String.compareTo. */
    function CompareTo(o: Word): (r: int)
      ensures word.None? && o.word.None? ==> r == 0
      ensures word.None? && o.word.Some? ==> r < 0
      ensures word.Some? && o.word.None? ==> r > 0
      ensures word.Some? && o.word.Some? ==> r == StringCompare(word.value, o.word.value)
    {
      if word.None? && o.word.None? then 0
      else if word.None? then -1
      else if o.word.None? then 1
      else StringCompare(word.value, o.word.value)
    }

    /**
     * sameAs(other): a null word is the same only as a null argument; otherwise both
     * strings must be present and `equivalent` (accent-stripped, case-insensitive).
     */
    function SameAs(other: Option<Word>, equivalent: (string, string) -> bool): (r: bool)
      ensures word.None? && other.None? ==> r
      ensures r ==> (word.None? <==> other.None?)
      ensures word.Some? && other.Some? && other.value.word.Some? ==>
                (r <==> equivalent(word.value, other.value.word.value))
      ensures other.Some? && other.value.word.None? ==> !r
    {
      if word.None? && other.None? then true
      else if word.None? then false
      else if other.None? then false
      else other.value.word.Some? && equivalent(word.value, other.value.word.value)
    }

    /** sameAsString(s): like sameAs, against a plain string. */
    function SameAsString(s: Option<string>, equivalent: (string, string) -> bool): (r: bool)
      ensures word.None? && s.None? ==> r
      ensures word.None? != s.None? ==> !r
      ensures word.Some? && s.Some? ==> (r <==> equivalent(word.value, s.value))
    {
      if word.None? && s.None? then true
      else if word.None? || s.None? then false
      else equivalent(word.value, s.value)
    }
  }

  /** new Word(s): a null string raises NullPointerException inside the regex match. */
  function NewWord(s: Option<string>, isLetter: char -> bool): (r: Result<Word>)
    ensures s.None? ==> r == Failure(NullPointer)
    ensures s.Some? ==> (r.Success? <==> IsValid(s.value, isLetter))
    ensures r.Success? ==> r.value.word == s && |s.value| >= 2
    ensures s.Some? && r.Failure? ==> r.error == IllegalArgument(INVALID_WORD)
  {
    if s.None? then Failure(NullPointer)
    else if !IsValid(s.value, isLetter) then Failure(IllegalArgument(INVALID_WORD))
    else Success(Word(s))
  }

  /** The no-argument constructor stores the empty string. */
  function DefaultWord(): (w: Word)
    ensures w.word == Some("")
  {
    Word(Some(""))
  }

  /** A constructed word gives back, through getWord and toString, exactly the text it was built from. */
  lemma NewWordKeepsText(s: Option<string>, isLetter: char -> bool)
    requires NewWord(s, isLetter).Success?
    ensures NewWord(s, isLetter).value.GetWord() == s && NewWord(s, isLetter).value.ToString() == s
  {
  }

  /** The default word is not one the public constructor would accept. */
  lemma DefaultWordNotConstructible(isLetter: char -> bool)
    ensures NewWord(DefaultWord().word, isLetter).Failure?
  {
  }

  /** Comparing constructed words is a strict total order on their strings. */
  lemma WordCompareIsOrder(a: Word, b: Word, c: Word)
    requires a.word.Some? && b.word.Some? && c.word.Some?
    ensures a.CompareTo(b) == -b.CompareTo(a)
    ensures a.CompareTo(b) == 0 <==> a == b
    ensures a.CompareTo(b) < 0 && b.CompareTo(c) < 0 ==> a.CompareTo(c) < 0
  {
    StringCompareAntisymmetric(a.word.value, b.word.value);
    StringCompareZeroIffEqual(a.word.value, b.word.value);
    if a.CompareTo(b) < 0 && b.CompareTo(c) < 0 {
      StringCompareTransitive(a.word.value, b.word.value, c.word.value);
    }
  }

  /** Under any reflexive equivalence a word is the same as itself and as its own text. */
  lemma SameAsReflexive(w: Word, equivalent: (string, string) -> bool)
    requires forall s :: equivalent(s, s)
    ensures w.SameAs(Some(w), equivalent) == w.word.Some?
    ensures w.SameAsString(w.ToString(), equivalent)
  {
  }
}

/** PhoneNumber: a positive Java int. */
module PhoneNumbers {
  import opened Wrappers
  import opened Numbers

  const NOT_VALID := "Number is not valid"

  datatype PhoneNumber = PhoneNumber(number: int32) {

    function ToString(): (s: string)
      ensures ParseLong(s) == Success(number as int)
    {
      ParseLongOfToDecimal(number as int);
      ToDecimal(number as int)
    }

    /** Integer.compare on the numbers. */
    function CompareTo(o: PhoneNumber): (r: int)
      ensures -1 <= r <= 1
      ensures r == 0 <==> number == o.number
      ensures r < 0 <==> number < o.number
    {
      if number < o.number then -1 else if number == o.number then 0 else 1
    }

    /** sameAs(p): false for null, otherwise equal numbers (also covers `this == p`). */
    function SameAs(p: Option<PhoneNumber>): (r: bool)
      ensures r <==> p.Some? && p.value == this
    {
      p.Some? && number == p.value.number
    }

    function Equals(o: Option<PhoneNumber>): (r: bool)
      ensures r <==> o.Some? && o.value == this
    {
      o.Some? && number == o.value.number
    }

    function SameAsInt(n: int32): (r: bool)
      ensures r <==> this == PhoneNumber(n)
    {
      number == n
    }
  }

  predicate IsValid(n: int32) {
    n > 0
  }

  /** new PhoneNumber(n). */
  function NewPhoneNumber(n: int32): (r: Result<PhoneNumber>)
    ensures r.Success? <==> n > 0
    ensures r.Success? ==> r.value.number == n
    ensures r.Failure? ==> r.error == IllegalArgument(NOT_VALID)
  {
    if !IsValid(n) then Failure(IllegalArgument(NOT_VALID)) else Success(PhoneNumber(n))
  }

  /** The no-argument constructor stores 0, a number the public constructor refuses. */
  function DefaultPhoneNumber(): (p: PhoneNumber)
    ensures p.number == 0 && NewPhoneNumber(p.number).Failure?
  {
    PhoneNumber(0)
  }

  /** compareTo is consistent with equals. */
  lemma CompareToConsistentWithEquals(a: PhoneNumber, b: PhoneNumber)
    ensures a.CompareTo(b) == 0 <==> a.Equals(Some(b))
    ensures a.CompareTo(b) == -b.CompareTo(a)
  {
  }
}

/** PositiveInteger: a non-negative Java int (zero included). */
module PositiveIntegers {
  import opened Wrappers
  import opened Numbers

  const MUST_BE_POSITIVE := "This number must be positive"

  datatype PositiveInteger = PositiveInteger(number: int32) {

    function Value(): int32 {
      number
    }

    function ToString(): (s: string)
      ensures ParseLong(s) == Success(number as int)
      ensures number >= 0 ==> AllDigits(s)
    {
      ParseLongOfToDecimal(number as int);
      ToDecimal(number as int)
    }
  }

  /** new PositiveInteger(n). */
  function NewPositiveInteger(n: int32): (r: Result<PositiveInteger>)
    ensures r.Success? <==> n >= 0
    ensures r.Success? ==> r.value.Value() == n
    ensures r.Failure? ==> r.error == IllegalArgument(MUST_BE_POSITIVE)
  {
    if n >= 0 then Success(PositiveInteger(n)) else Failure(IllegalArgument(MUST_BE_POSITIVE))
  }

  /** The persistence constructor stores 0. */
  function DefaultPositiveInteger(): (p: PositiveInteger)
    ensures p.Value() == 0 && NewPositiveInteger(0) == Success(p)
  {
    PositiveInteger(0)
  }

  /** The text of a constructed value is a plain digit string that parses back to it. */
  lemma ToStringRoundTrip(n: int32)
    requires NewPositiveInteger(n).Success?
    ensures var p := NewPositiveInteger(n).value;
            AllDigits(p.ToString()) && ParseLong(p.ToString()) == Success(n as int)
  {
  }
}
