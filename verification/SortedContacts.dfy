/** The contact list as a sorted sequence, and why that is a map from names to persons
    (task03/contacts.c, task03/main.c). */
module SortedContacts {
  import opened Persons
  import opened Wrappers

  ghost predicate Sorted(s: seq<Person>) {
    forall i, j :: 0 <= i < j < |s| ==> Before(s[i].name, s[j].name)
  }

  /** How many leading persons come before `name`: where contacts_add stops walking. */
  function Rank(s: seq<Person>, name: Name): (k: nat)
    ensures k <= |s|
    ensures forall i :: 0 <= i < k ==> Before(s[i].name, name)
    ensures k < |s| ==> !Before(s[k].name, name)
  {
    if s == [] || !Before(s[0].name, name) then 0 else 1 + Rank(s[1..], name)
  }

  /** The first person called `name`: where contacts_find and contacts_remove stop walking. */
  function IndexOf(s: seq<Person>, name: Name): (k: nat)
    ensures k <= |s|
    ensures forall i :: 0 <= i < k ==> s[i].name != name
    ensures k < |s| ==> s[k].name == name
  {
    if s == [] || s[0].name == name then 0 else 1 + IndexOf(s[1..], name)
  }

  function Insert(s: seq<Person>, p: Person): (bool, seq<Person>) {
    var k := Rank(s, p.name);
    if k < |s| && s[k].name == p.name then (false, s) else (true, s[..k] + [p] + s[k..])
  }

  function Delete(s: seq<Person>, name: Name): (bool, seq<Person>) {
    var k := IndexOf(s, name);
    if k < |s| then (true, s[..k] + s[k + 1..]) else (false, s)
  }

  function Lookup(s: seq<Person>, name: Name): Option<Person> {
    var k := IndexOf(s, name);
    if k < |s| then Some(s[k]) else None
  }

  function Replace(s: seq<Person>, p: Person): (bool, seq<Person>) {
    var k := IndexOf(s, p.name);
    if k < |s| then (true, s[k := p]) else (false, s)
  }

  // ---- the list is a map ----

  function AsMap(s: seq<Person>): map<Name, Person> {
    if s == [] then map[] else AsMap(s[1..])[s[0].name := s[0]]
  }

  lemma SortedApart(s: seq<Person>, i: nat, j: nat)
    requires Sorted(s) && i < j < |s|
    ensures s[i].name != s[j].name
  {
    CompareZero(s[i].name, s[j].name);
    assert Before(s[i].name, s[j].name);
  }

  lemma {:induction false} AsMapAt(s: seq<Person>, i: nat)
    requires Sorted(s) && i < |s|
    ensures s[i].name in AsMap(s) && AsMap(s)[s[i].name] == s[i] && IndexOf(s, s[i].name) == i
    decreases |s|
  {
    if i > 0 {
      AsMapAt(s[1..], i - 1);
      SortedApart(s, 0, i);
    }
  }

  lemma {:induction false} AsMapMember(s: seq<Person>, n: Name) returns (i: nat)
    requires n in AsMap(s)
    ensures i < |s| && s[i].name == n && AsMap(s)[n] == s[i]
    decreases |s|
  {
    if s[0].name == n {
      i := 0;
    } else {
      i := AsMapMember(s[1..], n);
      i := i + 1;
    }
  }

  /** If `t` lists exactly the bindings of `m`, then it represents `m`. */
  lemma AsMapIs(t: seq<Person>, m: map<Name, Person>)
    requires Sorted(t)
    requires forall i :: 0 <= i < |t| ==> t[i].name in m && m[t[i].name] == t[i]
    requires forall n :: n in m ==> m[n] in t && m[n].name == n
    ensures AsMap(t) == m
  {
    forall n | n in m
      ensures n in AsMap(t) && AsMap(t)[n] == m[n]
    {
      var i :| 0 <= i < |t| && t[i] == m[n];
      AsMapAt(t, i);
    }
    forall n | n in AsMap(t)
      ensures n in m
    {
      var i := AsMapMember(t, n);
    }
  }

  lemma InsertSorted(s: seq<Person>, p: Person)
    requires Sorted(s)
    ensures Sorted(Insert(s, p).1)
  {
    var k := Rank(s, p.name);
    if Insert(s, p).0 {
      if k < |s| {
        CompareTotal(s[k].name, p.name);
      }
      forall i | k <= i < |s|
        ensures Before(p.name, s[i].name)
      {
        if i > k {
          BeforeTransitive(p.name, s[k].name, s[i].name);
        }
      }
    }
  }

  lemma {:induction false} InsertAt(s: seq<Person>, p: Person, i: nat)
    requires Insert(s, p).0 && i <= |s|
    ensures var k := Rank(s, p.name);
            Insert(s, p).1[i] == if i < k then s[i] else if i == k then p else s[i - 1]
  {
    var k := Rank(s, p.name);
    if i > k {
      assert s[k..][i - k - 1] == s[i - 1];
    }
  }

  lemma InsertBinds(s: seq<Person>, p: Person, i: nat)
    requires Sorted(s) && p.name !in AsMap(s) && Insert(s, p).0 && i <= |s|
    ensures var q := Insert(s, p).1[i];
            var m := AsMap(s)[p.name := p];
            q.name in m && m[q.name] == q
  {
    var k := Rank(s, p.name);
    InsertAt(s, p, i);
    if i < k {
      AsMapAt(s, i);
    } else if i > k {
      AsMapAt(s, i - 1);
    }
  }

  lemma {:induction false} InsertCovers(s: seq<Person>, p: Person, n: Name)
    requires Sorted(s) && p.name !in AsMap(s) && Insert(s, p).0 && n in AsMap(s)[p.name := p]
    ensures var q := AsMap(s)[p.name := p][n];
            q in Insert(s, p).1 && q.name == n
  {
    var k, t := Rank(s, p.name), Insert(s, p).1;
    if n == p.name {
      assert t[k] == p;
    } else {
      var i := AsMapMember(s, n);
      assert t[if i < k then i else i + 1] == s[i];
    }
  }

  /** contacts_add stops at the first greater element, yet refuses exactly the known names. */
  lemma InsertRefusesDuplicates(s: seq<Person>, p: Person)
    requires Sorted(s)
    ensures Insert(s, p).0 <==> p.name !in AsMap(s)
  {
    var k := Rank(s, p.name);
    if k < |s| {
      AsMapAt(s, k);
    }
    if p.name in AsMap(s) {
      var i := AsMapMember(s, p.name);
      CompareZero(p.name, p.name);
    }
  }

  lemma InsertIsMapUpdate(s: seq<Person>, p: Person)
    requires Sorted(s)
    ensures AsMap(Insert(s, p).1) == if p.name in AsMap(s) then AsMap(s) else AsMap(s)[p.name := p]
  {
    InsertRefusesDuplicates(s, p);
    if p.name !in AsMap(s) {
      InsertSorted(s, p);
      var t, m := Insert(s, p).1, AsMap(s)[p.name := p];
      forall i | 0 <= i < |t|
        ensures t[i].name in m && m[t[i].name] == t[i]
      {
        InsertBinds(s, p, i);
      }
      forall n | n in m
        ensures m[n] in t && m[n].name == n
      {
        InsertCovers(s, p, n);
      }
      AsMapIs(t, m);
    }
  }

  lemma DeleteSorted(s: seq<Person>, name: Name)
    requires Sorted(s)
    ensures Sorted(Delete(s, name).1)
  {
  }

  lemma DeleteAt(s: seq<Person>, name: Name, i: nat)
    requires Delete(s, name).0 && i < |s| - 1
    ensures Delete(s, name).1[i] == if i < IndexOf(s, name) then s[i] else s[i + 1]
  {
  }

  lemma DeleteBinds(s: seq<Person>, name: Name, i: nat)
    requires Sorted(s) && Delete(s, name).0 && i < |s| - 1
    ensures var q := Delete(s, name).1[i];
            var m := AsMap(s) - {name};
            q.name in m && m[q.name] == q
  {
    DeleteAt(s, name, i);
    AsMapAt(s, if i < IndexOf(s, name) then i else i + 1);
  }

  lemma DeleteCovers(s: seq<Person>, name: Name, n: Name)
    requires Sorted(s) && Delete(s, name).0 && n in AsMap(s) && n != name
    ensures AsMap(s)[n] in Delete(s, name).1 && AsMap(s)[n].name == n
  {
    var k, t := IndexOf(s, name), Delete(s, name).1;
    var i := AsMapMember(s, n);
    assert t[if i < k then i else i - 1] == s[i];
  }

  lemma DeleteIsMapRemoval(s: seq<Person>, name: Name)
    requires Sorted(s)
    ensures Delete(s, name).0 <==> name in AsMap(s)
    ensures Sorted(Delete(s, name).1) && AsMap(Delete(s, name).1) == AsMap(s) - {name}
  {
    IndexFindsMembers(s, name);
    DeleteSorted(s, name);
    if Delete(s, name).0 {
      var t, m := Delete(s, name).1, AsMap(s) - {name};
      forall i | 0 <= i < |t|
        ensures t[i].name in m && m[t[i].name] == t[i]
      {
        DeleteBinds(s, name, i);
      }
      forall n | n in m
        ensures m[n] in t && m[n].name == n
      {
        DeleteCovers(s, name, n);
      }
      AsMapIs(t, m);
    }
  }

  lemma {:induction false} LookupIsMapLookup(s: seq<Person>, name: Name)
    requires Sorted(s)
    ensures Lookup(s, name) == if name in AsMap(s) then Some(AsMap(s)[name]) else None
  {
    IndexFindsMembers(s, name);
    if IndexOf(s, name) < |s| {
      AsMapAt(s, IndexOf(s, name));
    }
  }

  lemma ReplaceSorted(s: seq<Person>, p: Person)
    requires Sorted(s)
    ensures Sorted(Replace(s, p).1)
  {
  }

  lemma ReplaceBinds(s: seq<Person>, p: Person, i: nat)
    requires Sorted(s) && Replace(s, p).0 && i < |s|
    ensures var q := Replace(s, p).1[i];
            var m := AsMap(s)[p.name := p];
            q.name in m && m[q.name] == q
  {
    AsMapAt(s, i);
    AsMapAt(s, IndexOf(s, p.name));
  }

  lemma ReplaceCovers(s: seq<Person>, p: Person, n: Name)
    requires Sorted(s) && Replace(s, p).0 && n in AsMap(s)[p.name := p]
    ensures var q := AsMap(s)[p.name := p][n];
            q in Replace(s, p).1 && q.name == n
  {
    var k, t := IndexOf(s, p.name), Replace(s, p).1;
    if n == p.name {
      assert t[k] == p;
    } else {
      var i := AsMapMember(s, n);
      assert t[i] == s[i];
    }
  }

  lemma {:induction false} IndexFindsMembers(s: seq<Person>, name: Name)
    requires Sorted(s)
    ensures IndexOf(s, name) < |s| <==> name in AsMap(s)
  {
    if IndexOf(s, name) < |s| {
      AsMapAt(s, IndexOf(s, name));
    } else if name in AsMap(s) {
      var i := AsMapMember(s, name);
    }
  }

  /** Editing in place keeps the order because the new person has the name searched for. */
  lemma {:induction false} ReplaceIsMapUpdate(s: seq<Person>, p: Person)
    requires Sorted(s)
    ensures Replace(s, p).0 <==> p.name in AsMap(s)
    ensures Sorted(Replace(s, p).1)
    ensures AsMap(Replace(s, p).1) == if p.name in AsMap(s) then AsMap(s)[p.name := p] else AsMap(s)
  {
    IndexFindsMembers(s, p.name);
    ReplaceSorted(s, p);
    if Replace(s, p).0 {
      var t, m := Replace(s, p).1, AsMap(s)[p.name := p];
      forall i | 0 <= i < |t|
        ensures t[i].name in m && m[t[i].name] == t[i]
      {
        ReplaceBinds(s, p, i);
      }
      forall n | n in m
        ensures m[n] in t && m[n].name == n
      {
        ReplaceCovers(s, p, n);
      }
      AsMapIs(t, m);
    }
  }

  // ---- runs of the menu ----

  /** `stale` is what the uninitialised person_t of person_init happens to hold. */
  datatype Command =
    | Add(stale: Person, name: Name, emails: Emails, profiles: seq<Profile>)
    | Edit(name: Name, emails: Emails, profiles: seq<Profile>)
    | Remove(name: Name)
    | Find(name: Name)

  /** More profiles than slots are reported by enter_profiles, but the menu goes on to copy them
      past the end of the array. From there on C promises nothing and the model stops. */
  datatype Answer = Succeeded(ok: bool) | Found(person: Option<Person>) | Undefined

  function ListStep(s: seq<Person>, c: Command): (seq<Person>, Answer) {
    match c
    case Add(stale, n, e, pr) =>
      if |pr| > PROFILES_SIZE then (s, Undefined)
      else
        var r := Insert(s, Edited(stale, n, e, pr));
        (r.1, Succeeded(r.0))
    case Edit(n, e, pr) =>
      (match Lookup(s, n)
       case None => (s, Succeeded(false))
       case Some(p) =>
         if |pr| > PROFILES_SIZE then (s, Undefined) else (Replace(s, Edited(p, n, e, pr)).1, Succeeded(true)))
    case Remove(n) => var r := Delete(s, n); (r.1, Succeeded(r.0))
    case Find(n) => (s, Found(Lookup(s, n)))
  }

  function MapStep(m: map<Name, Person>, c: Command): (map<Name, Person>, Answer) {
    match c
    case Add(stale, n, e, pr) =>
      if |pr| > PROFILES_SIZE then (m, Undefined)
      else (if n in m then m else m[n := Edited(stale, n, e, pr)], Succeeded(n !in m))
    case Edit(n, e, pr) =>
      if n !in m then (m, Succeeded(false))
      else if |pr| > PROFILES_SIZE then (m, Undefined)
      else (m[n := Edited(m[n], n, e, pr)], Succeeded(true))
    case Remove(n) => (m - {n}, Succeeded(n in m))
    case Find(n) => (m, Found(if n in m then Some(m[n]) else None))
  }

  function ListRun(s: seq<Person>, cs: seq<Command>): (seq<Person>, seq<Answer>)
    decreases |cs|
  {
    if cs == [] then (s, [])
    else
      var r := ListStep(s, cs[0]);
      if r.1 == Undefined then (r.0, [Undefined])
      else
        var rest := ListRun(r.0, cs[1..]);
        (rest.0, [r.1] + rest.1)
  }

  function MapRun(m: map<Name, Person>, cs: seq<Command>): (map<Name, Person>, seq<Answer>)
    decreases |cs|
  {
    if cs == [] then (m, [])
    else
      var r := MapStep(m, cs[0]);
      if r.1 == Undefined then (r.0, [Undefined])
      else
        var rest := MapRun(r.0, cs[1..]);
        (rest.0, [r.1] + rest.1)
  }

  lemma StepRefinesMap(s: seq<Person>, c: Command)
    requires Sorted(s)
    ensures Sorted(ListStep(s, c).0)
    ensures (AsMap(ListStep(s, c).0), ListStep(s, c).1) == MapStep(AsMap(s), c)
  {
    match c
    case Add(stale, n, e, pr) =>
      if |pr| <= PROFILES_SIZE {
        var p := Edited(stale, n, e, pr);
        InsertSorted(s, p);
        InsertRefusesDuplicates(s, p);
        InsertIsMapUpdate(s, p);
      }
    case Edit(n, e, pr) =>
      LookupIsMapLookup(s, n);
      if n in AsMap(s) && |pr| <= PROFILES_SIZE {
        ReplaceIsMapUpdate(s, Edited(AsMap(s)[n], n, e, pr));
      }
    case Remove(n) => DeleteIsMapRemoval(s, n);
    case Find(n) => LookupIsMapLookup(s, n);
  }

  /** For every sequence of commands the list stays strictly sorted, and its contents and all
      answers are those of a map from names to persons. */
  lemma {:induction false} ListRefinesMap(s: seq<Person>, cs: seq<Command>)
    requires Sorted(s)
    ensures Sorted(ListRun(s, cs).0)
    ensures (AsMap(ListRun(s, cs).0), ListRun(s, cs).1) == MapRun(AsMap(s), cs)
    decreases |cs|
  {
    if cs != [] {
      StepRefinesMap(s, cs[0]);
      if ListStep(s, cs[0]).1 != Undefined {
        ListRefinesMap(ListStep(s, cs[0]).0, cs[1..]);
      }
    }
  }

  // ---- when a session becomes undefined ----

  predicate TooMany(c: Command) { (c.Add? || c.Edit?) && |c.profiles| > 5 }

  ghost predicate Knows(s: seq<Person>, name: Name) { exists i :: 0 <= i < |s| && s[i].name == name }

  /** The command copies profiles past the end of a person. */
  ghost predicate Overflows(s: seq<Person>, c: Command) { TooMany(c) && (c.Add? || Knows(s, c.name)) }

  lemma StepUndefined(s: seq<Person>, c: Command)
    ensures ListStep(s, c).1 == Undefined <==> Overflows(s, c)
  {
    if c.Edit? && IndexOf(s, c.name) < |s| {
      assert s[IndexOf(s, c.name)].name == c.name;
    }
  }

  /** The command at position `i` does so with what the commands before it leave in the list. */
  ghost predicate OverflowsAt(s: seq<Person>, cs: seq<Command>, i: nat)
    requires i < |cs|
  {
    Overflows(ListRun(s, cs[..i]).0, cs[i])
  }

  lemma OverflowsLater(s: seq<Person>, cs: seq<Command>, i: nat)
    requires i + 1 < |cs| && ListStep(s, cs[0]).1 != Undefined
    ensures OverflowsAt(s, cs, i + 1) <==> OverflowsAt(ListStep(s, cs[0]).0, cs[1..], i)
  {
    assert cs[..i + 1][1..] == cs[1..][..i];
  }

  lemma OverflowsShift(s: seq<Person>, cs: seq<Command>)
    requires cs != [] && ListStep(s, cs[0]).1 != Undefined
    ensures forall i :: 1 <= i < |cs| ==>
              (OverflowsAt(s, cs, i) <==> OverflowsAt(ListStep(s, cs[0]).0, cs[1..], i - 1))
  {
    forall i | 1 <= i < |cs|
      ensures OverflowsAt(s, cs, i) <==> OverflowsAt(ListStep(s, cs[0]).0, cs[1..], i - 1)
    {
      OverflowsLater(s, cs, i - 1);
    }
  }

  /** A session becomes undefined exactly if, with the contents of that moment, some command adds
      or edits a known person with more than five profiles. The first such command is the last
      one answered; if there is none, all are answered. */
  lemma {:induction false} UndefinedExactlyWhen(s: seq<Person>, cs: seq<Command>)
    ensures var answers := ListRun(s, cs).1;
            && (Undefined in answers <==> exists i :: 0 <= i < |cs| && OverflowsAt(s, cs, i))
            && (Undefined !in answers ==> |answers| == |cs|)
            && (Undefined in answers ==>
                  && 1 <= |answers| <= |cs| && OverflowsAt(s, cs, |answers| - 1)
                  && forall i :: 0 <= i < |answers| - 1 ==> !OverflowsAt(s, cs, i))
    decreases |cs|
  {
    if cs != [] {
      var (t, a) := ListStep(s, cs[0]);
      assert cs[..0] == [];
      StepUndefined(s, cs[0]);
      assert OverflowsAt(s, cs, 0) <==> a == Undefined;
      if a != Undefined {
        UndefinedExactlyWhen(t, cs[1..]);
        OverflowsShift(s, cs);
        var rest := ListRun(t, cs[1..]).1;
        assert ListRun(s, cs).1 == [a] + rest;
        if Undefined in rest {
          assert OverflowsAt(s, cs, |rest|);
        }
      }
    }
  }

  /** In particular five profiles or fewer are always safe. */
  lemma FewProfilesAreSafe(s: seq<Person>, cs: seq<Command>)
    requires forall i :: 0 <= i < |cs| ==> !TooMany(cs[i])
    ensures Undefined !in ListRun(s, cs).1 && |ListRun(s, cs).1| == |cs|
  {
    UndefinedExactlyWhen(s, cs);
  }

  // ---- what the answers mean ----

  /** In terms of the persons in the list alone. */
  lemma AnswersMean(s: seq<Person>, c: Command)
    requires Sorted(s) && !Overflows(s, c)
    ensures var a := ListStep(s, c).1;
            match c
            case Add(_, _, _, _) => a == Succeeded(!Knows(s, c.name))
            case Edit(_, _, _) => a == Succeeded(Knows(s, c.name))
            case Remove(_) => a == Succeeded(Knows(s, c.name))
            case Find(_) =>
              a.Found? && (if a.person.None? then !Knows(s, c.name)
                           else a.person.value in s && a.person.value.name == c.name)
  {
    if IndexOf(s, c.name) < |s| {
      assert s[IndexOf(s, c.name)].name == c.name;
    }
    match c
    case Add(stale, n, e, pr) =>
      InsertRefusesDuplicates(s, Edited(stale, n, e, pr));
      MapKnows(s, n);
    case _ =>
  }

  lemma MapKnows(s: seq<Person>, name: Name)
    requires Sorted(s)
    ensures name in AsMap(s) <==> Knows(s, name)
  {
    if name in AsMap(s) {
      var i := AsMapMember(s, name);
    } else if Knows(s, name) {
      var i :| 0 <= i < |s| && s[i].name == name;
      AsMapAt(s, i);
    }
  }

  lemma MapHolds(s: seq<Person>, p: Person)
    requires Sorted(s)
    ensures p in s <==> p.name in AsMap(s) && AsMap(s)[p.name] == p
  {
    if p in s {
      var i :| 0 <= i < |s| && s[i] == p;
      AsMapAt(s, i);
    } else if p.name in AsMap(s) {
      var i := AsMapMember(s, p.name);
    }
  }

  /** A command touches no person of another name. */
  lemma OthersStay(s: seq<Person>, c: Command, p: Person)
    requires Sorted(s) && p.name != c.name
    ensures p in ListStep(s, c).0 <==> p in s
  {
    StepRefinesMap(s, c);
    MapHolds(s, p);
    MapHolds(ListStep(s, c).0, p);
  }

  /** The person is as entered. */
  predicate IsEntry(p: Person, name: Name, emails: Emails, profiles: seq<Profile>) {
    && p.name.firstName == name.firstName && p.name.lastName == name.lastName
    && p.emails.home == emails.home && p.emails.work == emails.work
    && p.profilesSize == |profiles| <= 5 && p.slots[..|profiles|] == profiles
  }

  /** A session that goes on after the commands `a` has answered them all. */
  lemma {:induction false} PrefixAnswered(s: seq<Person>, a: seq<Command>, b: seq<Command>)
    requires |ListRun(s, a + b).1| > |a|
    ensures |ListRun(s, a).1| == |a| && Undefined !in ListRun(s, a).1
    decreases |a|
  {
    if a != [] {
      assert (a + b)[0] == a[0] && (a + b)[1..] == a[1..] + b;
      PrefixAnswered(ListStep(s, a[0]).0, a[1..], b);
    }
  }

  lemma AnswersCons(first: Answer, rest: seq<Answer>, more: seq<Answer>)
    ensures [first] + (rest + more) == [first] + rest + more
    ensures Undefined !in [first] + rest ==> Undefined !in rest && first != Undefined
  {
    assert ([first] + rest)[0] == first;
    assert forall i :: 0 <= i < |rest| ==> rest[i] == ([first] + rest)[i + 1];
  }

  lemma {:induction false} RunSplit(s: seq<Person>, a: seq<Command>, b: seq<Command>)
    requires Undefined !in ListRun(s, a).1
    ensures ListRun(s, a + b).0 == ListRun(ListRun(s, a).0, b).0
    ensures ListRun(s, a + b).1 == ListRun(s, a).1 + ListRun(ListRun(s, a).0, b).1
    decreases |a|
  {
    if a == [] {
      assert a + b == b;
    } else {
      var t := ListStep(s, a[0]).0;
      assert (a + b)[0] == a[0] && (a + b)[1..] == a[1..] + b;
      AnswersCons(ListStep(s, a[0]).1, ListRun(t, a[1..]).1, ListRun(ListRun(t, a[1..]).0, b).1);
      RunSplit(t, a[1..], b);
    }
  }

  /** Commands that leave the entry under a name alone: all but its editing and removal. */
  ghost predicate Sparing(cs: seq<Command>, name: Name) {
    forall i :: 0 <= i < |cs| && cs[i].name == name ==> cs[i].Add? || cs[i].Find?
  }

  lemma {:induction false} EntryStays(m: map<Name, Person>, cs: seq<Command>, name: Name)
    requires name in m && Sparing(cs, name)
    ensures name in MapRun(m, cs).0 && MapRun(m, cs).0[name] == m[name]
    decreases |cs|
  {
    if cs != [] && MapStep(m, cs[0]).1 != Undefined {
      EntryStays(MapStep(m, cs[0]).0, cs[1..], name);
    }
  }

  lemma FindAfter(s: seq<Person>, c: Command, between: seq<Command>)
    requires Sorted(s) && (c.Add? || c.Edit?) && ListStep(s, c).1 == Succeeded(true) && Sparing(between, c.name)
    ensures var a := ListStep(ListRun(ListStep(s, c).0, between).0, Find(c.name)).1;
            a.Found? && a.person.Some? && IsEntry(a.person.value, c.name, c.emails, c.profiles)
  {
    var t := ListStep(s, c).0;
    StepRefinesMap(s, c);
    EntryStays(AsMap(t), between, c.name);
    ListRefinesMap(t, between);
    StepRefinesMap(ListRun(t, between).0, Find(c.name));
  }

  /** In every session: after an entry was accepted, whether added or edited, looking up its name
      shows it exactly as entered, until the name is edited again or removed. */
  lemma FindReturnsEntry(f: File, before: seq<Command>, c: Command, between: seq<Command>)
    requires (c.Add? || c.Edit?) && Sparing(between, c.name)
    requires var answers := ListRun(Load([], f).1, before + ([c] + (between + [Find(c.name)]))).1;
             |answers| == |before| + |between| + 2 && answers[|before|] == Succeeded(true)
    ensures var answers := ListRun(Load([], f).1, before + ([c] + (between + [Find(c.name)]))).1;
            var last := answers[|answers| - 1];
            last.Found? && last.person.Some? && IsEntry(last.person.value, c.name, c.emails, c.profiles)
  {
    var s := Load([], f).1;
    LoadOutcome(f);
    var rest := between + [Find(c.name)];
    PrefixAnswered(s, before, [c] + rest);
    RunSplit(s, before, [c] + rest);
    var t := ListRun(s, before).0;
    ListRefinesMap(s, before);
    assert ([c] + rest)[1..] == rest;
    var u := ListStep(t, c).0;
    PrefixAnswered(u, between, [Find(c.name)]);
    RunSplit(u, between, [Find(c.name)]);
    FindAfter(t, c, between);
    assert [Find(c.name)][1..] == [];
  }

  lemma {:induction false} StaysAway(m: map<Name, Person>, cs: seq<Command>, name: Name)
    requires name !in m && forall i :: 0 <= i < |cs| && cs[i].name == name ==> !cs[i].Add?
    ensures name !in MapRun(m, cs).0
    decreases |cs|
  {
    if cs != [] && MapStep(m, cs[0]).1 != Undefined {
      StaysAway(MapStep(m, cs[0]).0, cs[1..], name);
    }
  }

  /** And once a name was removed, nobody of that name is in the list until it is added again. */
  lemma RemovedStaysAway(s: seq<Person>, name: Name, cs: seq<Command>)
    requires Sorted(s) && forall i :: 0 <= i < |cs| && cs[i].name == name ==> !cs[i].Add?
    ensures !Knows(ListRun(ListStep(s, Remove(name)).0, cs).0, name)
  {
    var t := ListStep(s, Remove(name)).0;
    StepRefinesMap(s, Remove(name));
    StaysAway(AsMap(t), cs, name);
    ListRefinesMap(t, cs);
    MapKnows(ListRun(t, cs).0, name);
  }

  /** After any session the list is in dictionary order of first names, and of last names where
      first names are the same. */
  lemma ListIsInDictionaryOrder(f: File, cs: seq<Command>, i: nat, j: nat)
    requires i < j < |ListRun(Load([], f).1, cs).0|
    ensures var s := ListRun(Load([], f).1, cs).0;
            var a, b := s[i].name, s[j].name;
            || Smaller(a.firstName, b.firstName)
            || (a.firstName == b.firstName && Smaller(a.lastName, b.lastName))
  {
    LoadOutcome(f);
    ListRefinesMap(Load([], f).1, cs);
    var s := ListRun(Load([], f).1, cs).0;
    FirstNamesDecide(s[i].name, s[j].name);
  }

  // ---- the order of insertion does not matter ----

  /** Adding the persons one by one, stopping at the first that is refused. */
  function InsertAll(s: seq<Person>, ps: seq<Person>): (bool, seq<Person>)
    decreases |ps|
  {
    if ps == [] then (true, s)
    else
      var r := Insert(s, ps[0]);
      if r.0 then InsertAll(r.1, ps[1..]) else r
  }

  ghost predicate DistinctNames(ps: seq<Person>) {
    forall i, j :: 0 <= i < j < |ps| ==> ps[i].name != ps[j].name
  }

  ghost predicate NoneIn(ps: seq<Person>, m: map<Name, Person>) {
    forall i :: 0 <= i < |ps| ==> ps[i].name !in m
  }

  lemma InsertMultiset(s: seq<Person>, p: Person)
    ensures Insert(s, p).0 ==> multiset(Insert(s, p).1) == multiset(s) + multiset{p}
  {
    var k := Rank(s, p.name);
    assert s == s[..k] + s[k..];
  }

  /** Loading succeeds if and only if all names involved are distinct; it then holds exactly the
      old and new persons, in order. */
  lemma {:induction false} InsertAllOutcome(s: seq<Person>, ps: seq<Person>)
    requires Sorted(s)
    ensures Sorted(InsertAll(s, ps).1)
    ensures InsertAll(s, ps).0 <==> DistinctNames(ps) && NoneIn(ps, AsMap(s))
    ensures InsertAll(s, ps).0 ==> multiset(InsertAll(s, ps).1) == multiset(s) + multiset(ps)
    decreases |ps|
  {
    if ps != [] {
      var r := Insert(s, ps[0]);
      InsertSorted(s, ps[0]);
      InsertRefusesDuplicates(s, ps[0]);
      InsertIsMapUpdate(s, ps[0]);
      InsertMultiset(s, ps[0]);
      if r.0 {
        InsertAllOutcome(r.1, ps[1..]);
        assert ps == [ps[0]] + ps[1..];
        assert DistinctNames(ps) && NoneIn(ps, AsMap(s)) <==> DistinctNames(ps[1..]) && NoneIn(ps[1..], AsMap(r.1)) by {
          DistinctCons(ps, AsMap(s));
        }
      }
    }
  }

  lemma DistinctCons(ps: seq<Person>, m: map<Name, Person>)
    requires ps != [] && ps[0].name !in m
    ensures DistinctNames(ps) && NoneIn(ps, m) <==>
              DistinctNames(ps[1..]) && NoneIn(ps[1..], m[ps[0].name := ps[0]])
  {
    if DistinctNames(ps[1..]) && NoneIn(ps[1..], m[ps[0].name := ps[0]]) {
      forall i, j | 0 <= i < j < |ps|
        ensures ps[i].name != ps[j].name
      {
        assert ps[j] == ps[1..][j - 1];
        if i > 0 {
          assert ps[i] == ps[1..][i - 1];
        }
      }
      forall i | 0 <= i < |ps|
        ensures ps[i].name !in m
      {
        if i > 0 {
          assert ps[i] == ps[1..][i - 1];
        }
      }
    } else if DistinctNames(ps) && NoneIn(ps, m) {
      forall i | 0 <= i < |ps[1..]|
        ensures ps[1..][i].name !in m[ps[0].name := ps[0]]
      {
        assert ps[1..][i] == ps[i + 1];
      }
    }
  }

  lemma SameFirst(s: seq<Person>, t: seq<Person>)
    requires Sorted(s) && Sorted(t) && s != [] && t != [] && s[0] in t && t[0] in s
    ensures s[0] == t[0]
  {
    var i :| 0 <= i < |t| && t[i] == s[0];
    var j :| 0 <= j < |s| && s[j] == t[0];
    if i > 0 && j > 0 {
      assert Before(t[0].name, t[i].name) && Before(s[0].name, s[j].name);
      CompareTotal(t[0].name, s[0].name);
    }
  }

  lemma TailMultiset(s: seq<Person>)
    requires s != []
    ensures multiset(s[1..]) == multiset(s) - multiset{s[0]}
  {
    assert s == [s[0]] + s[1..];
  }

  /** A sorted list is determined by what it contains. */
  lemma {:induction false} SortedUnique(s: seq<Person>, t: seq<Person>)
    requires Sorted(s) && Sorted(t) && multiset(s) == multiset(t)
    ensures s == t
    decreases |s|
  {
    assert |s| == |multiset(s)| == |multiset(t)| == |t|;
    if s != [] {
      assert s[0] in multiset(t) && t[0] in multiset(s);
      SameFirst(s, t);
      TailMultiset(s);
      TailMultiset(t);
      SortedUnique(s[1..], t[1..]);
      assert s == [s[0]] + s[1..] && t == [t[0]] + t[1..];
    }
  }

  lemma {:induction false} AtMostOnce(ps: seq<Person>, p: Person)
    requires DistinctNames(ps)
    ensures multiset(ps)[p] <= 1
    decreases |ps|
  {
    if ps != [] {
      assert ps == [ps[0]] + ps[1..];
      AtMostOnce(ps[1..], p);
    }
  }

  lemma Twice(qs: seq<Person>, i: nat, j: nat)
    requires i < j < |qs| && qs[i] == qs[j]
    ensures multiset(qs)[qs[j]] >= 2
  {
    assert qs == qs[..j] + [qs[j]] + qs[j + 1..];
    assert qs[i] in qs[..j];
  }

  lemma PermutationDistinct(ps: seq<Person>, qs: seq<Person>)
    requires DistinctNames(ps) && multiset(ps) == multiset(qs)
    ensures DistinctNames(qs)
  {
    forall i, j | 0 <= i < j < |qs|
      ensures qs[i].name != qs[j].name
    {
      assert qs[i] in multiset(ps) && qs[j] in multiset(ps);
      if qs[i].name == qs[j].name {
        assert qs[i] == qs[j];
        AtMostOnce(ps, qs[i]);
        Twice(qs, i, j);
      }
    }
  }

  /** Inserting the same persons in any order gives the same list. */
  lemma InsertionOrderIrrelevant(ps: seq<Person>, qs: seq<Person>)
    requires DistinctNames(ps) && multiset(ps) == multiset(qs)
    ensures InsertAll([], ps).0 && InsertAll([], qs) == InsertAll([], ps)
  {
    PermutationDistinct(ps, qs);
    InsertAllOutcome([], ps);
    InsertAllOutcome([], qs);
    SortedUnique(InsertAll([], ps).1, InsertAll([], qs).1);
  }

  lemma MembersAgree(s: seq<Person>, t: seq<Person>)
    requires Sorted(s) && Sorted(t) && AsMap(s) == AsMap(t) && s != []
    ensures s[0] in t
  {
    AsMapAt(s, 0);
    var i := AsMapMember(t, s[0].name);
  }

  lemma {:induction false} TailMap(s: seq<Person>)
    requires Sorted(s) && s != []
    ensures Sorted(s[1..]) && AsMap(s[1..]) == AsMap(s) - {s[0].name}
  {
    DeleteIsMapRemoval(s, s[0].name);
    assert IndexOf(s, s[0].name) == 0;
    assert s[..0] + s[1..] == s[1..];
  }

  /** The map determines the list: there is one sorted list of its bindings. */
  lemma {:induction false} MapDeterminesList(s: seq<Person>, t: seq<Person>)
    requires Sorted(s) && Sorted(t) && AsMap(s) == AsMap(t)
    ensures s == t
    decreases |s|
  {
    if s != [] && t != [] {
      MembersAgree(s, t);
      MembersAgree(t, s);
      SameFirst(s, t);
      TailMap(s);
      TailMap(t);
      MapDeterminesList(s[1..], t[1..]);
      assert s == [s[0]] + s[1..] && t == [t[0]] + t[1..];
    } else if s != [] {
      MembersAgree(s, t);
    } else if t != [] {
      MembersAgree(t, s);
    }
  }

  // ---- the file ----

  /** A contacts file: whole records, then `tail` bytes too few for another. */
  datatype File = File(records: seq<Person>, tail: nat)

  /** contacts_write opens without truncating: it overlays the first records. */
  function Overlay(f: File, s: seq<Person>): File {
    if |s| > |f.records| then File(s, 0) else File(s + f.records[|s|..], f.tail)
  }

  /** One record written at an offset: it replaces a record, or extends the file and takes the
      place of the incomplete one. */
  function WithRecord(f: File, offset: nat, p: Person): File
    requires offset <= |f.records|
  {
    if offset < |f.records| then f.(records := f.records[offset := p]) else File(f.records + [p], 0)
  }

  /** Record by record: the list's persons, and behind them what the file held there before. An
      incomplete record at its end goes only when the list reaches that far. */
  ghost predicate IsOverlaid(f: File, s: seq<Person>, g: File) {
    && |g.records| == (if |s| > |f.records| then |s| else |f.records|)
    && (forall i :: 0 <= i < |g.records| ==> g.records[i] == if i < |s| then s[i] else f.records[i])
    && g.tail == (if |s| > |f.records| then 0 else f.tail)
  }

  lemma OverlayIsOverlaid(f: File, s: seq<Person>)
    ensures IsOverlaid(f, s, Overlay(f, s))
  {
  }

  lemma OverlayNext(f: File, s: seq<Person>, p: Person)
    ensures WithRecord(Overlay(f, s), |s|, p) == Overlay(f, s + [p])
  {
  }

  /** contacts_read adds record after record, then fails on an incomplete one. */
  function Load(s: seq<Person>, f: File): (bool, seq<Person>) {
    var r := InsertAll(s, f.records);
    (r.0 && f.tail == 0, r.1)
  }

  lemma SortedDistinct(s: seq<Person>)
    requires Sorted(s)
    ensures DistinctNames(s)
  {
    forall i, j | 0 <= i < j < |s|
      ensures s[i].name != s[j].name
    {
      SortedApart(s, i, j);
    }
  }

  /** Reading a file into an empty list succeeds if and only if its records are complete and
      their names pairwise distinct, and then gives the sorted list of exactly its records. */
  lemma LoadOutcome(f: File)
    ensures Load([], f).0 <==> DistinctNames(f.records) && f.tail == 0
    ensures Sorted(Load([], f).1)
    ensures Load([], f).0 ==> multiset(Load([], f).1) == multiset(f.records)
  {
    InsertAllOutcome([], f.records);
  }

  /** Writing a list over a file and reading it back into an empty list gives the list if and
      only if the list covers what was in the file. */
  lemma WriteReadRoundTrip(s: seq<Person>, f: File)
    requires Sorted(s)
    ensures Load([], Overlay(f, s)) == (true, s) <==>
              |s| > |f.records| || (|s| == |f.records| && f.tail == 0)
  {
    var g := Overlay(f, s);
    LoadOutcome(g);
    if |s| >= |f.records| {
      assert g.records == s;
      SortedDistinct(s);
      if Load([], g).0 {
        SortedUnique(Load([], g).1, s);
      }
    } else if Load([], g).0 {
      assert |multiset(Load([], g).1)| == |multiset(g.records)|;
      assert |Load([], g).1| == |multiset(Load([], g).1)|;
      assert |g.records| == |multiset(g.records)|;
    }
  }

  /** A session on a file that can be read, written back over it: the next session finds what
      this one leaves exactly if the list has not become shorter, because the file never does. */
  lemma NextSessionFindsContents(f: File, cs: seq<Command>)
    requires Load([], f).0
    ensures var s := ListRun(Load([], f).1, cs).0;
            Load([], Overlay(f, s)) == (true, s) <==> |s| >= |Load([], f).1|
  {
    LoadOutcome(f);
    var loaded := Load([], f).1;
    assert |loaded| == |multiset(loaded)| == |multiset(f.records)| == |f.records|;
    ListRefinesMap(loaded, cs);
    WriteReadRoundTrip(ListRun(loaded, cs).0, f);
  }
}
