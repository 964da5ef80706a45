/** The readers-writer lock both implementations are meant to be: a set of processes reading
    and a set of processes writing, with guarded atomic transitions. */
module AbstractRwLock {
  import opened Wrappers

  datatype Lock = Lock(readers: set<nat>, writers: set<nat>)

  datatype Label =
    | Silent
    | EnterRead(p: nat)
    | LeaveRead(p: nat)
    | EnterWrite(p: nat)
    | LeaveWrite(p: nat)

  const FREE := Lock({}, {})

  predicate Allowed(l: Lock, a: Label) {
    match a
    case Silent => true
    case EnterRead(p) => p !in l.readers && l.writers == {}
    case LeaveRead(p) => p in l.readers
    case EnterWrite(p) => l.readers == {} && l.writers == {}
    case LeaveWrite(p) => p in l.writers
  }

  function Do(l: Lock, a: Label): Lock {
    match a
    case Silent => l
    case EnterRead(p) => l.(readers := l.readers + {p})
    case LeaveRead(p) => l.(readers := l.readers - {p})
    case EnterWrite(p) => l.(writers := l.writers + {p})
    case LeaveWrite(p) => l.(writers := l.writers - {p})
  }

  /** The lock reached by a sequence of labels, or None when one of them is not allowed. */
  function Execute(l: Lock, labels: seq<Label>): Option<Lock>
    decreases |labels|
  {
    if labels == [] then Some(l)
    else if Allowed(l, labels[0]) then Execute(Do(l, labels[0]), labels[1..])
    else None
  }

  /** The labels that mean something. */
  function Spoken(labels: seq<Label>): seq<Label> {
    if labels == [] then []
    else (if labels[0].Silent? then [] else [labels[0]]) + Spoken(labels[1..])
  }

  lemma {:induction false} SpokenAppend(a: seq<Label>, b: seq<Label>)
    ensures Spoken(a + b) == Spoken(a) + Spoken(b)
    decreases |a|
  {
    if a == [] {
      assert a + b == b;
    } else {
      assert (a + b)[1..] == a[1..] + b;
      SpokenAppend(a[1..], b);
    }
  }

  lemma {:induction false} SpokenExecutes(l: Lock, labels: seq<Label>)
    ensures Execute(l, Spoken(labels)) == Execute(l, labels)
    decreases |labels|
  {
    if labels != [] {
      SpokenExecutes(Do(l, labels[0]), labels[1..]);
      if labels[0].Silent? {
        assert Spoken(labels) == Spoken(labels[1..]);
      } else {
        assert Spoken(labels)[1..] == Spoken(labels[1..]);
      }
    }
  }

  ghost predicate Exclusive(l: Lock) {
    && (forall p, q :: p in l.writers && q in l.writers ==> p == q)
    && (l.writers != {} ==> l.readers == {})
  }

  /** Whatever the abstract lock does, a writer is alone. */
  lemma {:induction false} ExecuteExclusive(l: Lock, labels: seq<Label>)
    requires Exclusive(l) && Execute(l, labels).Some?
    ensures Exclusive(Execute(l, labels).value)
    decreases |labels|
  {
    if labels != [] {
      ExecuteExclusive(Do(l, labels[0]), labels[1..]);
    }
  }
}
