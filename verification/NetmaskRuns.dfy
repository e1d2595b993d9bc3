/**
 Whole runs of a NetmaskTree: whatever the sequence of operations, and whether
 or not the tree frees bare branches, every lookup answers as a linear scan over
 a finite map of prefixes does.
 */
module NetmaskRuns {
  import opened Basics
  import opened Addresses
  import opened NetmaskTrees

  datatype Op =
    | Put(key: Netmask, value: bool)
    | Erase(key: Netmask)
    | Clear
    | Duplicate  // go on with a copy of the tree
    | Lookup(ip: Address, maxBits: int)

  function Step(t: Table, op: Op): (r: Table)
  {
    match op
    case Put(key, v) => t[PrefixOf(key) := Stored(key, v)]
    case Erase(key) => t - {PrefixOf(key)}
    case Clear => map[]
    case Duplicate => t
    case Lookup(_, _) => t
  }

  function TableAfter(ops: seq<Op>): (t: Table)
    ensures TableOk(t)
  {
    if ops == [] then map[] else Step(TableAfter(ops[..|ops| - 1]), ops[|ops| - 1])
  }

  /** One answer per operation; a lookup's answer is what the scan over the map of that moment finds. */
  ghost predicate AnswersOk(ops: seq<Op>, answers: seq<Option<Stored>>)
  {
    && |answers| == |ops|
    && forall i | 0 <= i < |ops| :: AnswerOk(TableAfter(ops[..i]), ops[i], answers[i])
  }

  ghost predicate AnswerOk(t: Table, op: Op, answer: Option<Stored>)
  {
    if op.Lookup? then ScanFinds(t, op.ip, op.maxBits, answer) else answer == None
  }

  method Apply(t: NetmaskTree, op: Op) returns (t': NetmaskTree, answer: Option<Stored>)
    requires t.Valid()
    modifies t
    ensures t'.Valid() && (t' == t || fresh(t')) && t'.cleanup == t.cleanup
    ensures t'.Table() == Step(old(t.Table()), op)
    ensures AnswerOk(old(t.Table()), op, answer)
  {
    hide StoreOk, Dense, TableIn, InsertSpec, ScanFinds;
    t', answer := t, None;
    if op.Duplicate? {
      t' := new NetmaskTree.Copy(t);
      return;
    }
    match op {
      case Put(key, v) => t.InsertOrAssign(key, v);
      case Erase(key) => t.Erase(key);
      case Clear => t.Clear();
      case Duplicate =>
      case Lookup(ip, maxBits) =>
        var ret := t.Lookup(ip, maxBits);
        answer := if ret == NULL then None else Some(t.store.pairs[ret]);
    }
  }

  /** Runs any sequence of operations on a new tree. */
  method Run(cleanup: bool, ops: seq<Op>) returns (answers: seq<Option<Stored>>)
    ensures AnswersOk(ops, answers)
  {
    var t := new NetmaskTree(cleanup);
    answers := [];
    for i := 0 to |ops|
      invariant t.Valid() && fresh(t)
      invariant t.Table() == TableAfter(ops[..i])
      invariant AnswersOk(ops[..i], answers)
    {
      var answer;
      t, answer := Apply(t, ops[i]);
      answers := answers + [answer];
      OneMore(ops, answers, i);
    }
    assert ops[..|ops|] == ops;
  }

  lemma OneMore(ops: seq<Op>, answers: seq<Option<Stored>>, i: nat)
    requires i < |ops| && |answers| == i + 1 && AnswersOk(ops[..i], answers[..i])
    requires AnswerOk(TableAfter(ops[..i]), ops[i], answers[i])
    ensures AnswersOk(ops[..i + 1], answers)
    ensures TableAfter(ops[..i + 1]) == Step(TableAfter(ops[..i]), ops[i])
  {
    var next := ops[..i + 1];
    assert next[..i] == ops[..i];
    forall j | 0 <= j < i + 1
      ensures AnswerOk(TableAfter(next[..j]), next[j], answers[j])
    {
      if j < i {
        assert next[..j] == ops[..i][..j] && next[j] == ops[..i][j] && answers[j] == answers[..i][j];
      }
    }
  }

  /**
   A sequence of operations has one list of correct answers.  Run's contract does not mention
   its `cleanup` argument and copying is an operation, so trees that free bare branches, trees
   that keep them and copied trees answer every lookup alike.
   */
  lemma AnswersAreUnique(ops: seq<Op>, a: seq<Option<Stored>>, b: seq<Option<Stored>>)
    requires AnswersOk(ops, a) && AnswersOk(ops, b)
    ensures a == b
  {
    forall i | 0 <= i < |ops|
      ensures a[i] == b[i]
    {
      if ops[i].Lookup? {
        ScanIsUnique(TableAfter(ops[..i]), ops[i].ip, ops[i].maxBits, a[i], b[i]);
      }
    }
  }
}
