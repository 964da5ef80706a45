/** The doubly linked contact list in memory and its file (task03/contacts.c, task03/main.c). */
module ContactList {
  import opened Persons
  import opened SortedContacts
  import opened Wrappers

  /** contacts_node_t. */
  class Node {
    var person: Person
    var prev: Node?
    var next: Node?

    /** malloc and the assignment of line 90; the links start as null. */
    constructor (person: Person)
      ensures this.person == person && prev == null && next == null
    {
      this.person, prev, next := person, null, null;
    }

    /** person_edit on the person stored in the node. */
    method PersonEdit(name: Name, emails: Emails, profiles: seq<Profile>)
      requires |profiles| <= PROFILES_SIZE
      modifies this`person
      ensures person == Edited(old(person), name, emails, profiles)
      ensures person.name == name && person.emails == emails && person.profilesSize == |profiles|
      ensures person.slots[..|profiles|] == profiles
      ensures person.slots[|profiles|..] == old(person).slots[|profiles|..]
    {
      person := person.(name := name);
      person := person.(emails := emails);
      person := person.(slots := profiles + person.slots[|profiles|..]);
      person := person.(profilesSize := |profiles|);
    }
  }

  /** The file `contacts.data`, written record by record at the current offset. */
  class RecordFile {
    var content: File

    constructor (content: File)
      ensures this.content == content
    {
      this.content := content;
    }

    method WriteRecord(offset: nat, p: Person)
      requires offset <= |content.records|
      modifies this
      ensures content == WithRecord(old(content), offset, p)
    {
      if offset < |content.records| {
        content := content.(records := content.records[offset := p]);
      } else {
        content := File(content.records + [p], 0);
      }
    }
  }

  /** `nodes`, sentinel first, are distinct and mutually linked from null to null. */
  ghost predicate Linked(nodes: seq<Node>)
    reads nodes
  {
    && nodes != []
    && (forall i, j :: 0 <= i < j < |nodes| ==> nodes[i] != nodes[j])
    && nodes[0].prev == null && nodes[|nodes| - 1].next == null
    && (forall i :: 0 <= i < |nodes| - 1 ==> nodes[i].next == nodes[i + 1])
    && (forall i :: 1 <= i < |nodes| ==> nodes[i].prev == nodes[i - 1])
  }

  /** The persons in the nodes after the sentinel. */
  ghost predicate Stores(nodes: seq<Node>, s: seq<Person>)
    reads nodes
  {
    |nodes| == |s| + 1 && forall i :: 1 <= i < |nodes| ==> nodes[i].person == s[i - 1]
  }

  /** A refused attempt to add. */
  predicate RefusedAdd(c: Command, a: Answer) { c.Add? && a == Succeeded(false) }

  function RefusedAdds(cs: seq<Command>, answers: seq<Answer>): nat
    requires |answers| <= |cs|
  {
    if answers == [] then 0
    else
      var n := |answers| - 1;
      RefusedAdds(cs, answers[..n]) + (if RefusedAdd(cs[n], answers[n]) then 1 else 0)
  }

  lemma RefusedNext(cs: seq<Command>, answers: seq<Answer>, a: Answer)
    requires |answers| < |cs|
    ensures RefusedAdds(cs, answers + [a]) ==
              RefusedAdds(cs, answers) + if RefusedAdd(cs[|answers|], a) then 1 else 0
  {
    assert (answers + [a])[..|answers|] == answers;
  }

  lemma {:induction false} NoneRefused(cs: seq<Command>, answers: seq<Answer>)
    requires |answers| <= |cs|
    ensures RefusedAdds(cs, answers) == 0 <==>
              forall i :: 0 <= i < |answers| ==> !RefusedAdd(cs[i], answers[i])
    decreases |answers|
  {
    if answers != [] {
      NoneRefused(cs, answers[..|answers| - 1]);
    }
  }

  lemma RunNext(s: seq<Person>, cs: seq<Command>, i: nat, answers: seq<Answer>)
    requires i < |cs|
    ensures var (t, a) := ListStep(s, cs[i]);
            (ListRun(s, cs[i..]).0, answers + ListRun(s, cs[i..]).1) ==
              if a == Undefined then (t, answers + [a])
              else (ListRun(t, cs[i + 1..]).0, answers + [a] + ListRun(t, cs[i + 1..]).1)
  {
    var (t, a) := ListStep(s, cs[i]);
    var rest := ListRun(t, cs[i + 1..]).1;
    assert cs[i..][1..] == cs[i + 1..];
    assert answers + ([a] + rest) == answers + [a] + rest;
  }

  /** contacts_t. The ghost fields list the nodes on the chain from the sentinel, the persons
      stored in them, and all nodes that came from malloc and have not been passed to free. */
  class Contacts {
    const fakeNode: Node
    ghost var spine: seq<Node>
    ghost var contents: seq<Person>
    ghost var heap: set<Node>

    ghost predicate Valid()
      reads this, spine
    {
      && Linked(spine) && spine[0] == fakeNode
      && Stores(spine, contents)
      && Sorted(contents)
      && Allocated()
    }

    ghost predicate Allocated()
      reads this
    {
      forall i :: 1 <= i < |spine| ==> spine[i] in heap
    }

    /** How many allocated nodes are not on the chain. */
    ghost function Unreachable(): int
      reads this
    {
      |heap| - |contents|
    }

    constructor ()
      ensures Valid() && fresh(spine) && contents == [] && heap == {}
    {
      fakeNode := new Node(Person(Name([], []), Emails([], []), BLANK_SLOTS, 0));
      new;
      spine, contents, heap := [fakeNode], [], {};
    }

    /** malloc, and the assignment of line 90. */
    method Allocate(person: Person) returns (node: Node)
      modifies this`heap
      ensures fresh(node) && node.person == person && node.prev == null && node.next == null
      ensures node !in old(heap) && heap == old(heap) + {node}
    {
      node := new Node(person);
      heap := heap + {node};
    }

    /** free: only of a node that is allocated, so of none twice. */
    method Free(node: Node)
      requires node in heap
      modifies this`heap
      ensures heap == old(heap) - {node}
    {
      heap := heap - {node};
    }

    /** Following the link of a node: only of the sentinel, or of one that is allocated. */
    method NextOf(node: Node) returns (next: Node?)
      requires node == fakeNode || node in heap
      ensures next == node.next
    {
      next := node.next;
    }

    /** Lines 92-106: walk past every smaller person. */
    method WalkPast(name: Name) returns (node: Node, duplicate: bool)
      requires Valid()
      ensures Rank(contents, name) < |spine| && node == spine[Rank(contents, name)]
      ensures duplicate <==> Rank(contents, name) < |contents| && contents[Rank(contents, name)].name == name
    {
      node := fakeNode;
      ghost var k := 0;
      while node.next != null
        invariant k < |spine| && node == spine[k]
        invariant node.next == if k + 1 < |spine| then spine[k + 1] else null
        invariant forall i :: 0 <= i < k ==> Before(contents[i].name, name)
        decreases |spine| - k
      {
        assert contents[k] == spine[k + 1].person;
        var comparison := Compare(node.next.person.name, name);
        CompareZero(node.next.person.name, name);
        if comparison == 0 {
          RankIs(contents, name, k);
          return node, true;
        }
        if comparison < 0 {
          node := node.next;
          k := k + 1;
          continue;
        }
        break;
      }
      if k < |contents| {
        CompareZero(contents[k].name, name);
      }
      RankIs(contents, name, k);
      duplicate := false;
    }

    /** contacts_add. */
    method Add(person: Person) returns (added: bool)
      requires Valid()
      modifies this, spine
      ensures Valid() && fresh(set n | n in spine && n !in old(spine))
      ensures (added, contents) == Insert(old(contents), person)
      ensures |heap| == old(|heap|) + 1
    {
      InsertSorted(contents, person);
      ghost var k := Rank(contents, person.name);
      var newNode := Allocate(person);
      var node, duplicate := WalkPast(person.name);
      if duplicate {
        return false;
      }
      PlaceAfter(node, newNode, k);
      return true;
    }

    method PlaceAfter(node: Node, newNode: Node, ghost k: nat)
      requires Linked(spine) && Stores(spine, contents) && k < |spine| && node == spine[k]
      requires newNode !in spine && newNode.next == null
      requires Allocated() && newNode in heap
      modifies this`spine, this`contents, spine`next, spine`prev, newNode`next, newNode`prev
      ensures spine == old(spine)[..k + 1] + [newNode] + old(spine)[k + 1..]
      ensures contents == old(contents)[..k] + [newNode.person] + old(contents)[k..]
      ensures Linked(spine) && Stores(spine, contents) && Allocated()
    {
      ghost var nodes := spine;
      LinkAfter(node, newNode, k);
      StoresInserted(nodes, contents, k, newNode);
      contents := contents[..k] + [newNode.person] + contents[k..];
    }

    /** Lines 108-114: the new node goes between `node` and its successor. */
    method LinkAfter(node: Node, newNode: Node, ghost k: nat)
      requires Linked(spine) && k < |spine| && node == spine[k]
      requires newNode !in spine && newNode.next == null
      modifies this`spine, spine`next, spine`prev, newNode`next, newNode`prev
      ensures spine == old(spine)[..k + 1] + [newNode] + old(spine)[k + 1..]
      ensures Linked(spine)
    {
      assert node.next == if k + 1 < |spine| then spine[k + 1] else null;
      ghost var s := spine;
      if node.next != null {
        newNode.next := node.next;
        node.next.prev := newNode;
      }
      node.next := newNode;
      newNode.prev := node;
      spine := s[..k + 1] + [newNode] + s[k + 1..];
      assert forall i :: 0 <= i <= k ==> spine[i] == s[i];
      assert forall i :: k + 1 < i < |spine| ==> spine[i] == s[i - 1];
    }

    /** Lines 123-128: the successor of `node` leaves the chain. */
    method UnlinkNext(node: Node, ghost k: nat)
      requires Linked(spine) && k + 1 < |spine| && node == spine[k]
      modifies this`spine, spine`next, spine`prev
      ensures spine == old(spine)[..k + 1] + old(spine)[k + 2..]
      ensures Linked(spine)
    {
      assert node.next == spine[k + 1];
      ghost var s := spine;
      var nodeToRemove := node.next;
      assert nodeToRemove.next == if k + 2 < |spine| then spine[k + 2] else null;
      node.next := nodeToRemove.next;
      if nodeToRemove.next != null {
        nodeToRemove.next.prev := node;
      }
      spine := s[..k + 1] + s[k + 2..];
      assert forall i :: 0 <= i <= k ==> spine[i] == s[i];
      assert forall i :: k < i < |spine| ==> spine[i] == s[i + 1];
    }

    /** Lines 123-130. */
    method TakeOutNext(node: Node, ghost k: nat)
      requires Linked(spine) && Stores(spine, contents) && k + 1 < |spine| && node == spine[k]
      requires Allocated()
      modifies this`spine, this`contents, this`heap, spine`next, spine`prev
      ensures spine == old(spine)[..k + 1] + old(spine)[k + 2..]
      ensures contents == old(contents)[..k] + old(contents)[k + 1..]
      ensures Linked(spine) && Stores(spine, contents)
      ensures Allocated() && heap == old(heap) - {old(spine)[k + 1]} && |heap| == old(|heap|) - 1
    {
      ghost var nodes := spine;
      var nodeToRemove := node.next;
      UnlinkNext(node, k);
      StoresRemoved(nodes, contents, k);
      contents := contents[..k] + contents[k + 1..];
      assert nodeToRemove == nodes[k + 1];
      Free(nodeToRemove);
    }

    /** The walk of lines 120-122: `node` stands just before the first person of that name. */
    method WalkTo(name: Name) returns (node: Node, found: bool)
      requires Valid()
      ensures IndexOf(contents, name) < |spine| && node == spine[IndexOf(contents, name)]
      ensures found <==> IndexOf(contents, name) < |contents|
    {
      node := fakeNode;
      ghost var k := 0;
      while node.next != null
        invariant k < |spine| && node == spine[k]
        invariant node.next == if k + 1 < |spine| then spine[k + 1] else null
        invariant forall i :: 0 <= i < k ==> contents[i].name != name
        decreases |spine| - k
      {
        assert contents[k] == spine[k + 1].person;
        CompareZero(node.next.person.name, name);
        if Compare(node.next.person.name, name) == 0 {
          IndexIs(contents, name, k);
          return node, true;
        }
        node := node.next;
        k := k + 1;
      }
      IndexIs(contents, name, k);
      found := false;
    }

    /** contacts_remove. */
    method Remove(name: Name) returns (removed: bool)
      requires Valid()
      modifies this, spine
      ensures Valid() && forall n :: n in spine ==> n in old(spine)
      ensures (removed, contents) == Delete(old(contents), name)
      ensures |heap| == old(|heap|) - if removed then 1 else 0
    {
      DeleteSorted(contents, name);
      var node, found := WalkTo(name);
      if found {
        TakeOutNext(node, IndexOf(contents, name));
      }
      return found;
    }

    /** contacts_find: the node whose person it returns a pointer to. */
    method FindNode(name: Name) returns (node: Node?)
      requires Valid()
      ensures Lookup(contents, name) == if node == null then None else Some(node.person)
      ensures node != null ==> IndexOf(contents, name) + 1 < |spine| && node == spine[IndexOf(contents, name) + 1]
    {
      var before, found := WalkTo(name);
      if found {
        assert before.next == spine[IndexOf(contents, name) + 1];
        return before.next;
      }
      return null;
    }

    /** Menu option 2: find the person, then edit it in place under the same name. */
    method EditContact(name: Name, emails: Emails, profiles: seq<Profile>) returns (a: Answer)
      requires Valid()
      modifies this`contents, spine`person
      ensures Valid()
      ensures (contents, a) == ListStep(old(contents), Edit(name, emails, profiles))
    {
      var node := FindNode(name);
      if node == null {
        return Succeeded(false);
      }
      if |profiles| > PROFILES_SIZE {
        return Undefined;
      }
      ghost var k := IndexOf(contents, name);
      ReplaceSorted(contents, Edited(contents[k], name, emails, profiles));
      EditNode(node, k, name, emails, profiles);
      return Succeeded(true);
    }

    method EditNode(node: Node, ghost k: nat, name: Name, emails: Emails, profiles: seq<Profile>)
      requires Linked(spine) && Stores(spine, contents) && |profiles| <= PROFILES_SIZE
      requires k < |contents| && node == spine[k + 1]
      modifies this`contents, spine`person
      ensures Linked(spine) && Stores(spine, contents)
      ensures contents == old(contents)[k := Edited(old(contents)[k], name, emails, profiles)]
    {
      contents := contents[k := Edited(contents[k], name, emails, profiles)];
      node.PersonEdit(name, emails, profiles);
    }

    /** The menu's dispatch of one command. */
    method Execute(c: Command) returns (a: Answer)
      requires Valid()
      modifies this, spine
      ensures Valid() && fresh(set n | n in spine && n !in old(spine))
      ensures (contents, a) == ListStep(old(contents), c)
      ensures Unreachable() == old(Unreachable()) + if RefusedAdd(c, a) then 1 else 0
    {
      match c {
        case Add(stale, n, e, pr) =>
          if |pr| > PROFILES_SIZE {
            return Undefined;
          }
          var ok := Add(Edited(stale, n, e, pr));
          a := Succeeded(ok);
        case Edit(n, e, pr) =>
          a := EditContact(n, e, pr);
        case Remove(n) =>
          var ok := Remove(n);
          a := Succeeded(ok);
        case Find(n) =>
          var node := FindNode(n);
          a := Found(if node == null then None else Some(node.person));
      }
    }

    /** The menu loop, until option 6. */
    method Menu(cs: seq<Command>) returns (answers: seq<Answer>)
      requires Valid()
      modifies this, spine
      ensures Valid() && fresh(set n | n in spine && n !in old(spine))
      ensures (contents, answers) == ListRun(old(contents), cs)
      ensures |answers| <= |cs| && Unreachable() == old(Unreachable()) + RefusedAdds(cs, answers)
    {
      answers := [];
      assert cs[0..] == cs && [] + ListRun(contents, cs).1 == ListRun(contents, cs).1;
      for i := 0 to |cs|
        invariant Valid() && fresh(set n | n in spine && n !in old(spine))
        invariant ListRun(old(contents), cs) ==
                    (ListRun(contents, cs[i..]).0, answers + ListRun(contents, cs[i..]).1)
        invariant |answers| == i && Unreachable() == old(Unreachable()) + RefusedAdds(cs, answers)
      {
        RunNext(contents, cs, i, answers);
        var a := Execute(cs[i]);
        RefusedNext(cs, answers, a);
        answers := answers + [a];
        if a == Undefined {
          return;
        }
      }
      assert cs[|cs|..] == [] && answers + [] == answers;
    }

    /** contacts_write: the records overlay the file from its start. */
    method Write(file: RecordFile)
      requires Valid()
      modifies file
      ensures Valid() && contents == old(contents)
      ensures file.content == Overlay(old(file.content), contents)
      ensures IsOverlaid(old(file.content), contents, file.content)
    {
      var node := fakeNode;
      var offset := 0;
      while node.next != null
        invariant 0 <= offset < |spine| && node == spine[offset]
        invariant node.next == if offset + 1 < |spine| then spine[offset + 1] else null
        invariant Valid() && contents == old(contents) && spine == old(spine)
        invariant file.content == Overlay(old(file.content), contents[..offset])
        decreases |spine| - offset
      {
        assert contents[..offset + 1] == contents[..offset] + [node.next.person];
        OverlayNext(old(file.content), contents[..offset], node.next.person);
        file.WriteRecord(offset, node.next.person);
        node := node.next;
        offset := offset + 1;
      }
      assert contents[..offset] == contents;
      OverlayIsOverlaid(old(file.content), contents);
    }

    /** contacts_read: records are added until one is refused or the file ends. */
    method Read(file: RecordFile) returns (ok: bool)
      requires Valid()
      modifies this, spine
      ensures Valid() && fresh(set n | n in spine && n !in old(spine))
      ensures (ok, contents) == Load(old(contents), file.content)
      ensures ok ==> Unreachable() == old(Unreachable())
    {
      var offset := 0;
      ghost var records := file.content.records;
      while offset < |file.content.records|
        invariant 0 <= offset <= |records| && file.content == old(file.content)
        invariant Valid() && fresh(set n | n in spine && n !in old(spine))
        invariant InsertAll(contents, records[offset..]) == InsertAll(old(contents), records)
        invariant Unreachable() == old(Unreachable())
        decreases |records| - offset
      {
        var added := Add(file.content.records[offset]);
        assert records[offset..][1..] == records[offset + 1..];
        if !added {
          return false;
        }
        offset := offset + 1;
      }
      return file.content.tail == 0;
    }

    /** contacts_destroy: `freed` lists the nodes passed to free. Their links are read before. */
    method Destroy() returns (ghost freed: seq<Node>)
      requires Valid()
      modifies this, fakeNode
      ensures Valid() && contents == []
      ensures freed == old(spine)[1..] && heap <= old(heap)
      ensures |heap| == old(Unreachable()) && forall n :: n in freed ==> n !in heap
    {
      var node := fakeNode.next;
      freed := [];
      while node != null
        invariant |freed| < |spine| && freed == spine[1..|freed| + 1]
        invariant unchanged(this`spine) && unchanged(this`contents) && unchanged(fakeNode)
        invariant Linked(spine) && spine[0] == fakeNode
        invariant heap <= old(heap) && |heap| == old(|heap|) - |freed|
        invariant forall i :: 1 <= i <= |freed| ==> spine[i] !in heap
        invariant forall i :: |freed| < i < |spine| ==> spine[i] in heap
        invariant node == if |freed| + 1 < |spine| then spine[|freed| + 1] else null
        decreases |spine| - |freed|
      {
        var next := NextOf(node);
        Free(node);
        freed := freed + [node];
        node := next;
      }
      fakeNode.next := null;
      spine, contents := [fakeNode], [];
    }
  }

  /** main: read the file, serve the menu, write the file, free the list. `heap` are the nodes
      that are still allocated at the end: one for every refused attempt to add, because
      contacts_add returns at line 98 without freeing the node of line 89. */
  method Session(file: RecordFile, cs: seq<Command>)
    returns (ok: bool, answers: seq<Answer>, ghost heap: set<Node>)
    modifies file
    ensures var (loaded, s) := Load([], old(file.content));
            && ok == loaded
            && answers == (if loaded then ListRun(s, cs).1 else [])
            && file.content == (if loaded && Undefined !in answers then Overlay(old(file.content), ListRun(s, cs).0)
                                else old(file.content))
            && (loaded && Undefined !in answers ==>
                  && IsOverlaid(old(file.content), ListRun(s, cs).0, file.content)
                  && |answers| <= |cs| && |heap| == RefusedAdds(cs, answers)
                  && (heap == {} <==> forall i :: 0 <= i < |answers| ==> !RefusedAdd(cs[i], answers[i])))
  {
    var contacts := new Contacts();
    answers, heap := [], {};
    ok := contacts.Read(file);
    if !ok {
      return;
    }
    answers := contacts.Menu(cs);
    if Undefined in answers {
      return;
    }
    contacts.Write(file);
    ghost var freed := contacts.Destroy();
    heap := contacts.heap;
    NoneRefused(cs, answers);
  }

  lemma StoresInserted(nodes: seq<Node>, s: seq<Person>, k: nat, n: Node)
    requires Stores(nodes, s) && k < |nodes|
    ensures Stores(nodes[..k + 1] + [n] + nodes[k + 1..], s[..k] + [n.person] + s[k..])
  {
  }

  lemma StoresRemoved(nodes: seq<Node>, s: seq<Person>, k: nat)
    requires Stores(nodes, s) && k + 1 < |nodes|
    ensures Stores(nodes[..k + 1] + nodes[k + 2..], s[..k] + s[k + 1..])
  {
  }

  lemma {:induction false} RankIs(s: seq<Person>, name: Name, k: nat)
    requires k <= |s| && (forall i :: 0 <= i < k ==> Before(s[i].name, name))
    requires k < |s| ==> !Before(s[k].name, name)
    ensures Rank(s, name) == k
  {
  }

  lemma {:induction false} IndexIs(s: seq<Person>, name: Name, k: nat)
    requires k <= |s| && (forall i :: 0 <= i < k ==> s[i].name != name)
    requires k < |s| ==> s[k].name == name
    ensures IndexOf(s, name) == k
  {
  }
}
