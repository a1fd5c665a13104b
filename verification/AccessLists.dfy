/** When one access list may replace another within a transaction. */
module AccessLists {
  import opened Words
  import opened JournalState
  import opened JournalLaws
  import Blockhash
  import opened Runs
  import opened Snapshots
  import opened RunLaws

  ghost predicate LoadsNoList(ops: seq<Op>) {
    forall op :: op in ops ==> !op.WarmList?
  }

  /** A list replaces the one before: warm is what the new one names, and what was loaded and is still hot. */
  lemma ListReplaces(s: Journal, list: AccessList)
    ensures var t := WarmAccessList(s, list);
      && SameInfos(t, s) && SameValues(t, s)
      && (forall a: Address :: t.IsAccountWarm(a) <==> a in list || IsHotAccount(s, a))
      && (forall a: Address, k: U256 :: t.IsSlotWarm(a, k) <==> (a in list && k in list[a]) || IsHotSlot(s, a, k))
  {
  }

  /** The journal's run gives what the snapshots' run gives. */
  predicate Agrees(s: Journal, ops: seq<Op>) {
    RunFrom(s, ops).1 == SimpleRun(SimpleOf(s), ops).1
  }

  function Replacing(first: AccessList, ops: seq<Op>, second: AccessList, rest: seq<Op>): seq<Op> {
    [WarmList(first)] + (ops + ([WarmList(second)] + rest))
  }

  lemma {:induction false} ListsGrowWithoutLists(ops: seq<Op>, tail: seq<Op>, list: AccessList)
    requires LoadsNoList(ops) && ListsGrow(tail, list) && ListsGrow(tail, map[])
    ensures ListsGrow(ops + tail, list)
    decreases |ops|
  {
    if ops == [] {
      assert ops + tail == tail;
    } else {
      assert ops[0] in ops;
      ListsGrowWithoutLists(ops[1..], tail, if ops[0].EndTransaction? then map[] else list);
      assert (ops + tail)[1..] == ops[1..] + tail;
    }
  }

  lemma CoveringListsGrow(first: AccessList, ops: seq<Op>, second: AccessList, rest: seq<Op>)
    requires LoadsNoList(ops) && LoadsNoList(rest) && Covers(second, first)
    ensures ListsGrow(Replacing(first, ops, second, rest), map[])
  {
    var tail := [WarmList(second)] + rest;
    assert tail[1..] == rest == rest + [];
    ListsGrowWithoutLists(rest, [], second);
    ListsGrowWithoutLists(ops, tail, first);
    assert Replacing(first, ops, second, rest)[1..] == ops + tail;
  }

  /** Reads of one slot or one account, first in a frame that reverts. */
  function Probe(op: Op): seq<Op> {
    [OpenFrame, op, RevertFrame]
  }

  lemma RunStep(c: Machine, op: Op, rest: seq<Op>)
    ensures Run(c, [op] + rest).1 == [Perform(c, op).1] + Run(Perform(c, op).0, rest).1
  {
  }

  lemma SimpleRunStep(m: Simple, op: Op, rest: seq<Op>)
    ensures SimpleRun(m, [op] + rest).1 == [SimplePerform(m, op).1] + SimpleRun(SimplePerform(m, op).0, rest).1
  {
  }

  lemma ProbeSteps(first: AccessList, op: Op, second: AccessList)
    ensures Replacing(first, Probe(op), second, [op])
         == [WarmList(first)] + ([OpenFrame] + ([op] + ([RevertFrame] + ([WarmList(second)] + ([op] + [])))))
  {
  }

  function AfterProbe(c: Machine, first: AccessList, op: Op, second: AccessList): Machine {
    var inFrame := Perform(Perform(c, WarmList(first)).0, OpenFrame).0;
    Perform(Perform(Perform(inFrame, op).0, RevertFrame).0, WarmList(second)).0
  }

  lemma ProbedRun(c: Machine, first: AccessList, op: Op, second: AccessList)
    ensures var outputs := Run(c, Replacing(first, Probe(op), second, [op])).1;
      |outputs| == 6 && outputs[5] == Perform(AfterProbe(c, first, op, second), op).1
  {
    hide Perform, Run, Replacing;
    ProbeSteps(first, op, second);
    var c1 := Perform(c, WarmList(first)).0;
    var c2 := Perform(c1, OpenFrame).0;
    var c3 := Perform(c2, op).0;
    var c4 := Perform(c3, RevertFrame).0;
    var c5 := Perform(c4, WarmList(second)).0;
    RunStep(c5, op, []);
    RunStep(c4, WarmList(second), [op] + []);
    RunStep(c3, RevertFrame, [WarmList(second)] + ([op] + []));
    RunStep(c2, op, [RevertFrame] + ([WarmList(second)] + ([op] + [])));
    RunStep(c1, OpenFrame, [op] + ([RevertFrame] + ([WarmList(second)] + ([op] + []))));
    RunStep(c, WarmList(first), [OpenFrame] + ([op] + ([RevertFrame] + ([WarmList(second)] + ([op] + [])))));
    NothingRun(Perform(c5, op).0);
  }

  lemma NothingRun(c: Machine)
    ensures Run(c, []) == (c, [])
  {
  }

  lemma NothingSimpleRun(m: Simple)
    ensures SimpleRun(m, []) == (m, [])
  {
  }

  lemma ProbedSimpleRun(m: Simple, first: AccessList, op: Op, second: AccessList)
    requires op.Sload? || op.ReadBalance?
    ensures var outputs := SimpleRun(m, Replacing(first, Probe(op), second, [op])).1;
      |outputs| == 6 && outputs[5] == SimplePerform(m.(list := second), op).1
  {
    hide SimpleRun, Replacing;
    ProbeSteps(first, op, second);
    var m2 := m.(list := first, saved := m.saved + [m.now]);
    var m3 := SimplePerform(m2, op).0;
    assert m3.saved == m2.saved;
    SimpleRunStep(m.(list := second), op, []);
    SimpleRunStep(m.(list := first), WarmList(second), [op] + []);
    SimpleRunStep(m3, RevertFrame, [WarmList(second)] + ([op] + []));
    SimpleRunStep(m2, op, [RevertFrame] + ([WarmList(second)] + ([op] + [])));
    SimpleRunStep(m.(list := first), OpenFrame, [op] + ([RevertFrame] + ([WarmList(second)] + ([op] + []))));
    SimpleRunStep(m, WarmList(first), [OpenFrame] + ([op] + ([RevertFrame] + ([WarmList(second)] + ([op] + [])))));
    NothingSimpleRun(SimplePerform(m.(list := second), op).0);
  }

  lemma ListedLoadIsNotLogged(c: Machine, a: Address)
    requires c.journal.accounts == map[] && c.journal.log == [] && c.journal.db.Healthy()
    requires a in c.journal.accessList
    ensures var read := Perform(c, ReadBalance(a)).0;
      && read.journal.log == [] && read.marks == c.marks && IsHotAccount(read.journal, a)
  {
  }

  /** Nothing is undone where nothing was logged. */
  lemma EmptyRevert(c: Machine, second: AccessList)
    requires c.journal.log == [] && c.marks != []
    ensures var t := Perform(Perform(c, RevertFrame).0, WarmList(second)).0.journal;
      t.accounts == c.journal.accounts && t.txId == c.journal.txId
  {
  }

  lemma AccountStaysHot(db: Database, first: AccessList, second: AccessList, a: Address)
    requires db.Healthy() && a in first
    ensures IsHotAccount(AfterProbe(Machine(Fresh(db), []), first, ReadBalance(a), second).journal, a)
  {
    var inFrame := Perform(Perform(Machine(Fresh(db), []), WarmList(first)).0, OpenFrame).0;
    assert inFrame == Machine(Fresh(db).(accessList := first, depth := 1), [0]);
    hide Perform;
    ListedLoadIsNotLogged(inFrame, a);
    EmptyRevert(Perform(inFrame, ReadBalance(a)).0, second);
  }

  lemma HotAccountIsCheap(c: Machine, a: Address)
    requires IsHotAccount(c.journal, a)
    ensures var output := Perform(c, ReadBalance(a)).1; output.Loaded? && output.cost == 100
  {
  }

  /** A listed account or slot that a reverted frame read stays warm when its list is replaced: no log
      entry undoes what the list made warm. */
  lemma DroppedAccountStaysWarm(db: Database, first: AccessList, second: AccessList, a: Address)
    requires db.Healthy() && a in first && a !in second
    ensures !Agrees(Fresh(db), Replacing(first, Probe(ReadBalance(a)), second, [ReadBalance(a)]))
  {
    var op := ReadBalance(a);
    var c := Machine(Fresh(db), []);
    ProbedRun(c, first, op, second);
    ProbedSimpleRun(SimpleOf(Fresh(db)), first, op, second);
    hide Run, SimpleRun, Replacing, Perform, AfterProbe;
    AccountStaysHot(db, first, second, a);
    HotAccountIsCheap(AfterProbe(c, first, op, second), a);
  }

  lemma ColdSlotIsDear(m: Simple, a: Address, k: U256)
    requires !m.SlotWarm(a, k)
    ensures SimplePerform(m, Sload(a, k, 100)).1 == Executed(Blockhash.Frame([k], 0, Some(Blockhash.OutOfGas)))
  {
  }

  lemma DroppedSlotStaysWarm(db: Database, first: AccessList, second: AccessList, a: Address, k: U256)
    requires db.Healthy() && a in first && k in first[a] && !(a in second && k in second[a])
    ensures !Agrees(Fresh(db), Replacing(first, Probe(Sload(a, k, 100)), second, [Sload(a, k, 100)]))
  {
    var op := Sload(a, k, 100);
    var c := Machine(Fresh(db), []);
    ProbedRun(c, first, op, second);
    ProbedSimpleRun(SimpleOf(Fresh(db)), first, op, second);
    ColdSlotIsDear(SimpleOf(Fresh(db)).(list := second), a, k);
    hide Run, SimpleRun, Replacing, Perform, AfterProbe, SimplePerform, SimpleOf;
    SlotStaysHot(db, first, second, a, k);
    HotSlotIsCheap(AfterProbe(c, first, op, second), a, k);
  }

  lemma ListedReadIsNotLogged(c: Machine, a: Address, k: U256)
    requires c.journal.accounts == map[] && c.journal.log == [] && c.journal.db.Healthy()
    requires c.journal.Lists(a, k)
    ensures var read := Perform(c, Sload(a, k, 100)).0;
      && read.journal.log == [] && read.marks == c.marks && IsHotSlot(read.journal, a, k)
  {
  }

  lemma SlotStaysHot(db: Database, first: AccessList, second: AccessList, a: Address, k: U256)
    requires db.Healthy() && a in first && k in first[a]
    ensures IsHotSlot(AfterProbe(Machine(Fresh(db), []), first, Sload(a, k, 100), second).journal, a, k)
  {
    var inFrame := Perform(Perform(Machine(Fresh(db), []), WarmList(first)).0, OpenFrame).0;
    assert inFrame == Machine(Fresh(db).(accessList := first, depth := 1), [0]);
    hide Perform;
    ListedReadIsNotLogged(inFrame, a, k);
    EmptyRevert(Perform(inFrame, Sload(a, k, 100)).0, second);
  }

  lemma HotSlotIsCheap(c: Machine, a: Address, k: U256)
    requires IsHotSlot(c.journal, a, k)
    ensures var output := Perform(c, Sload(a, k, 100)).1;
      output.Executed? && output.frame.halt.None?
  {
  }

  /** Replacing a transaction's list keeps its meaning in every run exactly if the new list covers the
      old one; so a first list always does. */
  lemma ReplacementIsSafeExactly(db: Database, first: AccessList, second: AccessList)
    requires db.Healthy()
    ensures Covers(second, first)
       <==> forall ops, rest | LoadsNoList(ops) && LoadsNoList(rest) ::
              Agrees(Fresh(db), Replacing(first, ops, second, rest))
  {
    hide Agrees, Replacing;
    if Covers(second, first) {
      forall ops, rest | LoadsNoList(ops) && LoadsNoList(rest)
        ensures Agrees(Fresh(db), Replacing(first, ops, second, rest))
      {
        CoveringRunAgrees(db, first, ops, second, rest);
      }
    } else {
      var a :| a in first && !(a in second && first[a] <= second[a]);
      if a !in second {
        DroppedAccountStaysWarm(db, first, second, a);
      } else {
        var k :| k in first[a] && k !in second[a];
        DroppedSlotStaysWarm(db, first, second, a, k);
      }
    }
  }

  lemma CoveringRunAgrees(db: Database, first: AccessList, ops: seq<Op>, second: AccessList, rest: seq<Op>)
    requires db.Healthy() && Covers(second, first) && LoadsNoList(ops) && LoadsNoList(rest)
    ensures Agrees(Fresh(db), Replacing(first, ops, second, rest))
  {
    CoveringListsGrow(first, ops, second, rest);
    RunFromRefines(Fresh(db), Replacing(first, ops, second, rest));
    hide Run, SimpleRun, Replacing, SimpleOf;
  }
}
