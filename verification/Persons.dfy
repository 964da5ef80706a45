/** Persons and the order of their names (task03/person.c). */
module Persons {

  /** A character of a C string, as the unsigned char that strcmp compares; never NUL. */
  type Char = c: int | 1 <= c < 256 witness 1

  type CString = seq<Char>

  datatype Name = Name(firstName: CString, lastName: CString)

  datatype Emails = Emails(home: CString, work: CString)

  datatype Profile = Profile(address: CString, nickname: CString)

  const PROFILES_SIZE := 5

  const BLANK_SLOTS: seq<Profile> := seq(PROFILES_SIZE, _ => Profile([], []))

  /** The array of a person_t: always all slots, whatever profiles_size says is used. */
  type Slots = s: seq<Profile> | |s| == PROFILES_SIZE witness BLANK_SLOTS

  datatype Person = Person(name: Name, emails: Emails, slots: Slots, profilesSize: nat)

  /** person_edit: the slots behind the new profiles keep what they held. */
  function Edited(p: Person, name: Name, emails: Emails, profiles: seq<Profile>): Person
    requires |profiles| <= PROFILES_SIZE
  {
    Person(name, emails, profiles + p.slots[|profiles|..], |profiles|)
  }

  /** strcmp (section 7.24.4.2 of C11): the sign of the first difference, the terminator
      counting as zero. */
  function StrCmp(a: CString, b: CString): int
    decreases |a|
  {
    if a == [] && b == [] then 0
    else if a == [] then -b[0]
    else if b == [] then a[0]
    else if a[0] != b[0] then a[0] - b[0]
    else StrCmp(a[1..], b[1..])
  }

  /** person_compare_by_name, on names. */
  function Compare(a: Name, b: Name): int {
    var first := StrCmp(a.firstName, b.firstName);
    if first == 0 then StrCmp(a.lastName, b.lastName) else first
  }

  predicate Before(a: Name, b: Name) { Compare(a, b) < 0 }

  lemma {:induction false} StrCmpZero(a: CString, b: CString)
    ensures StrCmp(a, b) == 0 <==> a == b
    decreases |a|
  {
    if a != [] && b != [] && a[0] == b[0] {
      StrCmpZero(a[1..], b[1..]);
      assert a == [a[0]] + a[1..] && b == [b[0]] + b[1..];
    }
  }

  lemma {:induction false} StrCmpFlips(a: CString, b: CString)
    ensures StrCmp(b, a) == -StrCmp(a, b)
    decreases |a|
  {
    if a != [] && b != [] && a[0] == b[0] {
      StrCmpFlips(a[1..], b[1..]);
    }
  }

  lemma {:induction false} StrCmpTransitive(a: CString, b: CString, c: CString)
    requires StrCmp(a, b) <= 0 && StrCmp(b, c) <= 0
    ensures StrCmp(a, c) <= 0
    ensures StrCmp(a, b) < 0 || StrCmp(b, c) < 0 ==> StrCmp(a, c) < 0
    decreases |a|
  {
    if a != [] && b != [] && c != [] && a[0] == b[0] == c[0] {
      StrCmpTransitive(a[1..], b[1..], c[1..]);
    }
  }

  /** The two chained comparisons are zero exactly on equal names. */
  lemma CompareZero(a: Name, b: Name)
    ensures Compare(a, b) == 0 <==> a == b
  {
    StrCmpZero(a.firstName, b.firstName);
    StrCmpZero(a.lastName, b.lastName);
  }

  /** They order names totally: exactly one of less, equal, greater. */
  lemma CompareTotal(a: Name, b: Name)
    ensures Compare(b, a) == -Compare(a, b)
    ensures Before(a, b) || a == b || Before(b, a)
    ensures !(Before(a, b) && Before(b, a))
  {
    StrCmpFlips(a.firstName, b.firstName);
    StrCmpFlips(a.lastName, b.lastName);
    CompareZero(a, b);
  }

  lemma BeforeTransitive(a: Name, b: Name, c: Name)
    requires Before(a, b) && Before(b, c)
    ensures Before(a, c)
  {
    StrCmpTransitive(a.firstName, b.firstName, c.firstName);
    StrCmpZero(a.firstName, b.firstName);
    StrCmpZero(b.firstName, c.firstName);
    if a.firstName == b.firstName == c.firstName {
      StrCmpTransitive(a.lastName, b.lastName, c.lastName);
      StrCmpZero(a.firstName, c.firstName);
    } else {
      StrCmpZero(a.firstName, c.firstName);
    }
  }

  // ---- which order it is ----

  /** Up to position `k` the strings agree; there `a` ends or has the smaller character. */
  predicate DiffersAt(a: CString, b: CString, k: nat) {
    k <= |a| && k < |b| && a[..k] == b[..k] && (k == |a| || a[k] < b[k])
  }

  /** Dictionary order. */
  ghost predicate Smaller(a: CString, b: CString) { exists k :: DiffersAt(a, b, k) }

  lemma {:induction false} DifferenceDecides(a: CString, b: CString, k: nat)
    requires DiffersAt(a, b, k)
    ensures StrCmp(a, b) < 0
    decreases k
  {
    if k > 0 {
      assert a[0] == a[..k][0] == b[..k][0] == b[0];
      assert a[1..][..k - 1] == a[..k][1..] == b[..k][1..] == b[1..][..k - 1];
      DifferenceDecides(a[1..], b[1..], k - 1);
    }
  }

  lemma {:induction false} FindDifference(a: CString, b: CString) returns (k: nat)
    requires StrCmp(a, b) < 0
    ensures DiffersAt(a, b, k)
    decreases |a|
  {
    k := 0;
    if a != [] && a[0] == b[0] {
      k := FindDifference(a[1..], b[1..]);
      k := k + 1;
      assert a[..k] == [a[0]] + a[1..][..k - 1] && b[..k] == [b[0]] + b[1..][..k - 1];
    }
  }

  lemma StrCmpIsDictionaryOrder(a: CString, b: CString)
    ensures StrCmp(a, b) < 0 <==> Smaller(a, b)
  {
    if StrCmp(a, b) < 0 {
      var k := FindDifference(a, b);
    } else if Smaller(a, b) {
      var k :| DiffersAt(a, b, k);
      DifferenceDecides(a, b, k);
    }
  }

  /** First names decide, in dictionary order; only between equal ones do last names, likewise. */
  lemma FirstNamesDecide(a: Name, b: Name)
    ensures Before(a, b) <==>
              Smaller(a.firstName, b.firstName)
              || (a.firstName == b.firstName && Smaller(a.lastName, b.lastName))
  {
    StrCmpIsDictionaryOrder(a.firstName, b.firstName);
    StrCmpIsDictionaryOrder(a.lastName, b.lastName);
    StrCmpZero(a.firstName, b.firstName);
  }
}
